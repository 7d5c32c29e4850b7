/** porcupine/checker.go:269-348: every schedule of the collector can be completed, and what it can
    answer. */
module ParallelProgress {
  import opened Linearizability
  import opened Search
  import opened Entries
  import opened CheckSingle
  import opened CheckParallel

  // ----- a search always has something to report

  ghost predicate LongestFor<S, V>(m: Model<S, V>, h: History<V>, i: nat, o: Option<seq<nat>>) {
    && (o.None? <==> forall p | LegalPrefix(m, h, p) :: i !in p)
    && (o.Some? ==>
          && i in o.value && LegalPrefix(m, h, o.value)
          && forall p | LegalPrefix(m, h, p) && i in p :: |p| <= |o.value|)
  }

  lemma {:induction false} LongestBelow<S, V>(m: Model<S, V>, h: History<V>, i: nat, n: nat) returns (o: Option<seq<nat>>)
    requires forall p | LegalPrefix(m, h, p) && i in p :: |p| <= n
    ensures LongestFor(m, h, i, o)
  {
    hide LegalPrefix;
    if p :| LegalPrefix(m, h, p) && i in p && |p| == n {
      o := Some(p);
    } else if n > 0 {
      o := LongestBelow(m, h, i, n - 1);
    } else {
      o := None;
    }
  }

  lemma {:induction false} PrefixSize<S, V>(m: Model<S, V>, h: History<V>, p: seq<nat>)
    requires LegalPrefix(m, h, p)
    ensures |p| <= |h|
  {
    DistinctSize(p);
    FullSet(Elems(p), |h|);
  }

  lemma {:induction false} LongestUpTo<S, V>(m: Model<S, V>, h: History<V>, k: nat) returns (longest: Longest)
    ensures |longest| == k && forall i | 0 <= i < k :: LongestFor(m, h, i, longest[i])
  {
    hide LegalPrefix, LongestFor;
    if k == 0 {
      longest := [];
    } else {
      var rest := LongestUpTo(m, h, k - 1);
      forall p | LegalPrefix(m, h, p) ensures |p| <= |h| { PrefixSize(m, h, p); }
      var o := LongestBelow(m, h, k - 1, |h|);
      longest := rest + [o];
    }
  }

  /** Whatever the history, there is a result that an unkilled search may return. */
  lemma {:induction false} ReportExists<S(!new), V(!new)>(m: Model<S, V>, es: seq<Entry<V>>, computePartial: bool)
    returns (ok: bool, longest: Longest)
    requires WellFormed(es)
    ensures Report(m, es, computePartial, ok, longest, false)
  {
    hide LegalPrefix, Linearizable;
    var h := HistoryOf(es);
    ok := Linearizable(m, h);
    if ok || computePartial {
      longest := LongestUpTo(m, h, |h|);
      assert forall i | 0 <= i < |h| :: LongestFor(m, h, i, longest[i]);
      assert LongestPrefixes(m, h, longest);
    } else {
      longest := seq(|h|, _ => None);
    }
  }

  // ----- a next step

  lemma {:induction false} FinishEnabled<S(!new), V(!new)>(t: Task<S, V>, c: State, i: nat) returns (c': State)
    requires ValidTask(t) && i < |c.workers| == |t.history| && c.workers[i].Running?
    ensures Next(t, c, c') && c'.phase == c.phase && c'.ok == c.ok && c'.timedOut == c.timedOut
  {
    hide Report, EqualRespectsStep;
    var ok, longest := ReportExists(t.model, t.history[i], t.computeInfo);
    var w := Finished(ok, longest, false);
    c' := c.(workers := c.workers[i := w], results := c.results + [i]);
    assert Finish(t, c, c', i, w);
  }

  lemma {:induction false} DrainEnabled<S(!new), V(!new)>(t: Task<S, V>, c: State) returns (c': State)
    requires ValidTask(t) && c.phase == Draining
    requires c.results != [] || |c.received| + |c.drained| >= |t.history|
    ensures Next(t, c, c') && c'.phase != Collecting && c'.ok == c.ok && c'.timedOut == c.timedOut
  {
    hide Report, EqualRespectsStep;
    c' := if |c.received| + |c.drained| < |t.history|
          then c.(results := c.results[1..], drained := c.drained + [c.results[0]])
          else c.(phase := CheckParallel.Done);
    assert Drain(t, c, c');
  }

  lemma {:induction false} ReceiveEnabled<S(!new), V(!new)>(t: Task<S, V>, c: State) returns (c': State)
    requires ValidTask(t) && Inv(t, c) && c.phase == Collecting && c.results != []
    ensures Next(t, c, c') && c'.timedOut == c.timedOut
  {
    hide Report, EqualRespectsStep;
    var all, i := c.received + c.drained + c.results, c.results[0];
    assert all[|c.received| + |c.drained|] == i && i in all;
    var ok := c.ok && c.workers[i].ok;
    var d := c.(results := c.results[1..], received := c.received + [i], ok := ok);
    c' := if !ok && !t.computeInfo then d.(kill := true, phase := AfterLoop(t))
          else if |d.received| >= |t.history| then d.(phase := AfterLoop(t))
          else d;
    assert Receive(t, c, c');
  }

  /** With a partition or a timeout there is always a next step, and with a partition one that
      is not the timeout. */
  lemma {:induction false} NextExists<S(!new), V(!new)>(t: Task<S, V>, c: State) returns (c': State)
    requires ValidTask(t) && Inv(t, c) && c.phase != CheckParallel.Done && (t.history != [] || t.hasTimeout)
    ensures Next(t, c, c')
    ensures t.history != [] ==> c'.timedOut == c.timedOut
    ensures c.phase != Collecting ==> c'.phase != Collecting && c'.ok == c.ok && c'.timedOut == c.timedOut
  {
    hide Report, EqualRespectsStep, Next, Honest, Tallied;
    if i :| 0 <= i < |c.workers| && c.workers[i].Running? {
      c' := FinishEnabled(t, c, i);
    } else if c.phase == Draining {
      if c.results == [] { NothingInFlight(t, c); }
      c' := DrainEnabled(t, c);
    } else if c.results != [] {
      c' := ReceiveEnabled(t, c);
    } else {
      NothingInFlight(t, c);
      c' := TimeOutEnabled(t, c);
    }
  }

  lemma {:induction false} TimeOutEnabled<S(!new), V(!new)>(t: Task<S, V>, c: State) returns (c': State)
    requires ValidTask(t) && c.phase == Collecting && t.hasTimeout
    ensures Next(t, c, c') && c' == c.(timedOut := true, kill := true, phase := AfterLoop(t))
  {
    hide Report, EqualRespectsStep;
    c' := c.(timedOut := true, kill := true, phase := AfterLoop(t));
    assert TimeOut(t, c, c');
  }

  /** Every schedule can be completed. */
  lemma {:induction false} RunToEnd<S(!new), V(!new)>(t: Task<S, V>, run: seq<State>) returns (run': seq<State>)
    requires ValidTask(t) && Run(t, run) && (t.history != [] || t.hasTimeout)
    ensures Run(t, run') && run <= run' && run'[|run'| - 1].phase == CheckParallel.Done
    ensures var c, c' := run[|run| - 1], run'[|run'| - 1];
      && (t.history != [] ==> c'.timedOut == c.timedOut)
      && (c.phase != Collecting ==> c'.ok == c.ok && c'.timedOut == c.timedOut)
    decreases StepsLeft(run[|run| - 1])
  {
    hide Next, Inv, ValidTask, StepsLeft;
    var c := run[|run| - 1];
    if c.phase == CheckParallel.Done {
      run' := run;
    } else {
      RunInv(t, run);
      var c1 := NextExists(t, c);
      StepsRunOut(t, c, c1);
      var longer := run + [c1];
      assert forall i | 0 <= i < |longer| - 1 :: Next(t, longer[i], longer[i + 1]) by { RunExtend(t, run, c1); }
      run' := RunToEnd(t, longer);
    }
  }

  lemma {:induction false} RunExtend<S(!new), V(!new)>(t: Task<S, V>, run: seq<State>, c: State)
    requires ValidTask(t) && Run(t, run) && Next(t, run[|run| - 1], c)
    ensures Run(t, run + [c])
  {
    hide Next, ValidTask;
    var longer := run + [c];
    forall i | 0 <= i < |longer| - 1 ensures Next(t, longer[i], longer[i + 1]) {
      assert longer[i] == run[i];
      assert i + 1 < |run| ==> longer[i + 1] == run[i + 1];
    }
  }

  // ----- what can be answered

  /** Some schedule of the call ends with this answer. */
  ghost predicate Answers<S(!new), V(!new)>(t: Task<S, V>, r: CheckResult) {
    ValidTask(t) && exists run: seq<State> :: Run(t, run) && EndsWith(run, r)
  }

  ghost predicate AllLinearizable<S(!new), V(!new)>(t: Task<S, V>)
    requires ValidTask(t)
  {
    forall i | 0 <= i < |t.history| :: Linearizable(t.model, HistoryOf(t.history[i]))
  }

  lemma {:induction false} AnswerRight<S(!new), V(!new)>(t: Task<S, V>, r: CheckResult)
    requires ValidTask(t) && Answers(t, r)
    ensures r == Ok ==> AllLinearizable(t)
    ensures r == Illegal ==> !AllLinearizable(t)
    ensures r == Unknown ==> t.hasTimeout
    ensures t.history == [] ==> r == Unknown
  {
    hide Run, Linearizable, ValidTask;
    var run: seq<State> :| Run(t, run) && EndsWith(run, r);
    VerdictCorrect(t, run);
    if t.history == [] { NoPartitions(t, run); }
  }

  lemma {:induction false} StartRun<S(!new), V(!new)>(t: Task<S, V>)
    requires ValidTask(t)
    ensures Run(t, [Init(t)])
  {
  }

  /** Exactly which answers a call can give.  Unknown, if there is a timeout; ok or illegal, if
      there is a partition, according to whether all partitions are linearizable.  So without
      partitions and without a timeout there is none. */
  lemma {:induction false} AnswersExactly<S(!new), V(!new)>(t: Task<S, V>)
    requires ValidTask(t)
    ensures Answers(t, Unknown) <==> t.hasTimeout
    ensures Answers(t, Ok) <==> t.history != [] && AllLinearizable(t)
    ensures Answers(t, Illegal) <==> t.history != [] && !AllLinearizable(t)
    ensures (exists r :: Answers(t, r)) <==> t.history != [] || t.hasTimeout
  {
    hide AllLinearizable, ValidTask;
    forall r | Answers(t, r)
      ensures r == Ok ==> t.history != [] && AllLinearizable(t)
      ensures r == Illegal ==> t.history != [] && !AllLinearizable(t)
      ensures r == Unknown ==> t.hasTimeout
    {
      AnswerRight(t, r);
    }
    if t.history != [] { NotTimedOut(t); }
    if t.hasTimeout { AtOnceTimedOut(t); }
  }

  lemma {:induction false} NotTimedOut<S(!new), V(!new)>(t: Task<S, V>)
    requires ValidTask(t) && t.history != []
    ensures Answers(t, if AllLinearizable(t) then Ok else Illegal)
  {
    hide Run, AllLinearizable, ValidTask;
    StartRun(t);
    var run := RunToEnd(t, [Init(t)]);
    var c := run[|run| - 1];
    assert !c.timedOut;
    assert EndsWith(run, Verdict(c));
    assert Answers(t, Verdict(c));
    AnswerRight(t, Verdict(c));
  }

  lemma {:induction false} AtOnceTimedOut<S(!new), V(!new)>(t: Task<S, V>)
    requires ValidTask(t) && t.hasTimeout
    ensures Answers(t, Unknown)
  {
    hide Run, ValidTask;
    StartRun(t);
    var c := TimeOutEnabled(t, Init(t));
    RunExtend(t, [Init(t)], c);
    var run := RunToEnd(t, [Init(t)] + [c]);
    assert EndsWith(run, Unknown);
  }
}
