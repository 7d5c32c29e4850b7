/** porcupine/checker.go:350-358: the check of a history that comes as events, for any model. */
module CheckEvents {
  import opened Linearizability
  import opened Entries
  import opened Events
  import opened CheckParallel
  import opened ParallelProgress

  /** checker.go:352-356, on the partitions that the model has made. */
  method PrepareEvents<S(!new), V(!new)>(model: Model<S, V>, partitions: seq<seq<Event<V, int>>>, verbose: bool, hasTimeout: bool)
    returns (t: Task<S, V>)
    ensures t.model == model && t.computeInfo == verbose && t.hasTimeout == hasTimeout
    ensures |t.history| == |partitions| && forall i | 0 <= i < |partitions| :: Converted(partitions[i], t.history[i])
  {
    var l: seq<seq<Entry<V>>> := [];
    for i := 0 to |partitions|
      invariant |l| == i && forall j | 0 <= j < i :: Converted(partitions[j], l[j])
    {
      var renumbered := Renumber(partitions[i]);
      var entries := ConvertEntries(renumbered);
      l := l + [entries];
    }
    t := Task(model, l, verbose, hasTimeout);
  }

  /** Exactly which answers can be given when in every partition each id is called once and
      then returns once: with a partition, ok if all the histories are linearizable and illegal
      if one is not; unknown if there is a timeout; nothing else. */
  lemma {:induction false} EventsVerdict<S(!new), V(!new)>(t: Task<S, V>, partitions: seq<seq<Event<V, int>>>, hs: seq<History<V>>)
    requires EqualRespectsStep(t.model) && |t.history| == |partitions| == |hs|
    requires forall i | 0 <= i < |hs| ::
      Balanced(partitions[i]) && Converted(partitions[i], t.history[i]) && EventHistory(partitions[i], hs[i])
    ensures Answers(t, Ok) <==> hs != [] && forall i | 0 <= i < |hs| :: Linearizable(t.model, hs[i])
    ensures Answers(t, Illegal) <==> exists i | 0 <= i < |hs| :: !Linearizable(t.model, hs[i])
    ensures Answers(t, Unknown) <==> t.hasTimeout
  {
    hide EqualRespectsStep, Balanced, Converted, EventHistory, Linearizable, Answers;
    forall i | 0 <= i < |hs| ensures WellFormed(t.history[i]) && HistoryOf(t.history[i]) == hs[i] {
      BalancedWellFormed(partitions[i], t.history[i]);
      EventHistoryUnique(partitions[i], HistoryOf(t.history[i]), hs[i]);
    }
    AnswersExactly(t);
  }
}
