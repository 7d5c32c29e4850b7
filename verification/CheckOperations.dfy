/** porcupine/checker.go:360-368 with the model of models/kv.go: from a timestamped history of
    the whole key/value store to the verdict. */
module CheckOperations {
  import opened Linearizability
  import opened Entries
  import opened Sorting
  import opened MakeEntries
  import opened Kv
  import opened CheckParallel
  import opened ParallelProgress

  /** The partitions of `h`, one for each of its keys and in their order, each turned into a list
      of entries by some sort. */
  ghost predicate Prepared(t: Task<string, KvValue>, h: KvHistory, keys: seq<string>) {
    && t.model == KvModel
    && |t.history| == |keys|
    && Distinct(keys) && Sorted(Less, keys)
    && (forall key :: key in keys <==> Occurs(h, key))
    && forall j | 0 <= j < |keys| ::
         IsSort(Earlier, t.history[j], Unsorted(Part(h, keys[j]), |Part(h, keys[j])|))
  }

  /** checker.go:360-367. */
  method Prepare(history: KvHistory, verbose: bool, hasTimeout: bool) returns (t: Task<string, KvValue>, keys: seq<string>)
    requires AllTyped(history)
    ensures Prepared(t, history, keys) && t.computeInfo == verbose && t.hasTimeout == hasTimeout
  {
    hide IsSort, Unsorted, Part, Occurs, Sorted;
    var partitions;
    partitions, keys := Partition(history);
    var l: seq<seq<Entry<KvValue>>> := [];
    for i := 0 to |partitions|
      invariant |l| == i
      invariant forall j | 0 <= j < i :: IsSort(Earlier, l[j], Unsorted(Part(history, keys[j]), |Part(history, keys[j])|))
    {
      var entries := MakeEntries.MakeEntries(partitions[i]);
      l := l + [entries];
    }
    t := Task(KvModel, l, verbose, hasTimeout);
  }

  // ----- from the store to the entry lists

  lemma {:induction false} PartProper(h: KvHistory, key: string)
    requires Proper(h)
    ensures Proper(Part(h, key))
  {
    var ps, part := Places(h, key), Part(h, key);
    assert forall j | 0 <= j < |part| :: part[j] == h[ps[j]];
  }

  /** Partitioning and making ties strict commute. */
  lemma {:induction false} PartStrict(h: KvHistory, key: string)
    ensures Part(Strict(h), key) == Strict(Part(h, key))
  {
    if h != [] {
      var n := |h| - 1;
      PartStrict(h[..n], key);
      assert Strict(h)[..n] == Strict(h[..n]);
      var o := h[n];
      assert On(Strict(h)[n], key) == On(o, key);
      assert Strict(Part(h[..n], key) + [o]) == Strict(Part(h[..n], key)) + [Strict(h)[n]];
    }
  }

  lemma {:induction false} StrictOfProper(h: KvHistory)
    requires Proper(h)
    ensures SaneTimes(h) && SaneTimes(Strict(h)) && (AllTyped(h) ==> AllTyped(Strict(h)))
  {
  }

  lemma {:induction false} StrictOccurs(h: KvHistory, key: string)
    ensures Occurs(Strict(h), key) <==> Occurs(h, key)
  {
    if Occurs(h, key) {
      var x :| 0 <= x < |h| && On(h[x], key);
      assert On(Strict(h)[x], key);
    }
    if Occurs(Strict(h), key) {
      var x :| 0 <= x < |h| && On(Strict(h)[x], key);
      assert On(h[x], key);
    }
  }

  ghost predicate KeysLinearizable(h: KvHistory, keys: seq<string>) {
    forall j | 0 <= j < |keys| :: Linearizable(KvModel, Part(h, keys[j]))
  }

  /** Locality, for the given and for the strict history. */
  lemma {:induction false} BothLocal(h: KvHistory, keys: seq<string>)
    requires AllTyped(h) && Proper(h) && forall key :: key in keys <==> Occurs(h, key)
    ensures Linearizable(StoreModel, h) <==> KeysLinearizable(h, keys)
    ensures Linearizable(StoreModel, Strict(h)) <==> KeysLinearizable(Strict(h), keys)
  {
    hide Linearizable, Proper, AllTyped, SaneTimes, Part, Occurs;
    StrictOfProper(h);
    PartitionLocality(h, keys, seq(|keys|, j requires 0 <= j < |keys| => Part(h, keys[j])));
    forall key ensures key in keys <==> Occurs(Strict(h), key) { StrictOccurs(h, key); }
    PartitionLocality(Strict(h), keys, seq(|keys|, j requires 0 <= j < |keys| => Part(Strict(h), keys[j])));
  }

  /** What the lists of a prepared task show, for one key. */
  lemma {:induction false} PartBetween(t: Task<string, KvValue>, h: KvHistory, keys: seq<string>, j: nat)
    requires Prepared(t, h, keys) && Proper(h) && j < |keys|
    ensures WellFormed(t.history[j])
    ensures Linearizable(KvModel, Part(Strict(h), keys[j])) ==> Linearizable(KvModel, HistoryOf(t.history[j]))
    ensures Linearizable(KvModel, HistoryOf(t.history[j])) ==> Linearizable(KvModel, Part(h, keys[j]))
  {
    hide Linearizable, IsSort, Proper, Part;
    PartProper(h, keys[j]);
    PartStrict(h, keys[j]);
    SortsBetween(KvModel, Part(h, keys[j]), t.history[j]);
  }

  lemma {:induction false} PreparedValid(t: Task<string, KvValue>, h: KvHistory, keys: seq<string>)
    requires Prepared(t, h, keys) && Proper(h)
    ensures ValidTask(t) && (t.history == [] <==> h == [] || keys == [])
  {
    hide Linearizable, IsSort, Part;
    EqualityRespectsSteps();
    forall j | 0 <= j < |t.history| ensures WellFormed(t.history[j]) { PartBetween(t, h, keys, j); }
    assert keys == [] || Occurs(h, keys[0]);
  }

  /** A history of typed operations has a key. */
  lemma {:induction false} SomeKey(h: KvHistory, keys: seq<string>)
    requires AllTyped(h) && h != [] && forall key :: key in keys <==> Occurs(h, key)
    ensures keys != []
  {
    assert Typed(h[0]) && On(h[0], h[0].input.key);
    assert Occurs(h, h[0].input.key);
  }

  // ----- the verdict

  /** The answer about a store history, whatever the sorts did with ties.  Ok means that the
      history is linearizable, and is given if the strict one is; illegal means that the strict
      one is not, and is given if the history is not. */
  lemma {:induction false} StoreBetween(t: Task<string, KvValue>, h: KvHistory, keys: seq<string>)
    requires Prepared(t, h, keys) && AllTyped(h) && Proper(h)
    ensures Answers(t, Ok) ==> Linearizable(StoreModel, h)
    ensures Answers(t, Illegal) ==> !Linearizable(StoreModel, Strict(h))
    ensures h != [] && Linearizable(StoreModel, Strict(h)) ==> Answers(t, Ok)
    ensures h != [] && !Linearizable(StoreModel, h) ==> Answers(t, Illegal)
    ensures (exists r :: Answers(t, r)) <==> h != [] || t.hasTimeout
  {
    hide Linearizable, Proper, AllTyped, IsSort, Part, Occurs, Answers;
    PreparedValid(t, h, keys);
    if h != [] { SomeKey(h, keys); }
    BothLocal(h, keys);
    forall j | 0 <= j < |keys|
      ensures Linearizable(KvModel, Part(Strict(h), keys[j])) ==> Linearizable(KvModel, HistoryOf(t.history[j]))
      ensures Linearizable(KvModel, HistoryOf(t.history[j])) ==> Linearizable(KvModel, Part(h, keys[j]))
    {
      PartBetween(t, h, keys, j);
    }
    AnswersExactly(t);
  }

  /** If no return has the timestamp of a call, a non-empty history is answered with ok exactly
      if it is linearizable, and with illegal exactly if it is not. */
  lemma {:induction false} StoreVerdict(t: Task<string, KvValue>, h: KvHistory, keys: seq<string>)
    requires Prepared(t, h, keys) && AllTyped(h) && Proper(h) && NoTies(h) && h != []
    ensures Answers(t, Ok) <==> Linearizable(StoreModel, h)
    ensures Answers(t, Illegal) <==> !Linearizable(StoreModel, h)
    ensures Answers(t, Unknown) <==> t.hasTimeout
  {
    hide Linearizable, Proper, AllTyped, NoTies, Answers;
    StoreBetween(t, h, keys);
    StrictWithoutTies(StoreModel, h);
    PreparedValid(t, h, keys);
    AnswersExactly(t);
  }

  /** An empty history has no partitions, and then there is an answer only if there is a timeout. */
  lemma {:induction false} EmptyHistoryHangs(t: Task<string, KvValue>, keys: seq<string>)
    requires Prepared(t, [], keys)
    ensures (exists r :: Answers(t, r)) <==> t.hasTimeout
    ensures forall r | Answers(t, r) :: r == Unknown
  {
    hide Answers;
    PreparedValid(t, [], keys);
    AnswersExactly(t);
    assert !Answers(t, Ok) && !Answers(t, Illegal);
  }

  // ----- which answers some sort can lead to

  function Plain(l: seq<seq<Entry<KvValue>>>): Task<string, KvValue> {
    Task(KvModel, l, false, false)
  }

  /** Some way of sorting lets the check of `h` end with this answer. */
  ghost predicate Possible(h: KvHistory, r: CheckResult) {
    exists keys, l :: Prepared(Plain(l), h, keys) && Answers(Plain(l), r)
  }

  lemma {:induction false} KeysExist(h: KvHistory) returns (keys: seq<string>)
    ensures Distinct(keys) && Sorted(Less, keys) && forall key :: key in keys <==> Occurs(h, key)
  {
    var some := KeysOfPrefix(h);
    LessIsOrdering();
    keys := SortExists(Less, some);
    SameElements(keys, some);
    NoNewDuplicates(keys, some);
  }

  lemma {:induction false} KeysOfPrefix(h: KvHistory) returns (keys: seq<string>)
    ensures Distinct(keys) && forall key :: key in keys <==> Occurs(h, key)
  {
    if h == [] {
      keys := [];
    } else {
      var n := |h| - 1;
      var rest := KeysOfPrefix(h[..n]);
      assert h == h[..n] + [h[n]];
      OccursSnoc(h[..n], h[n]);
      keys := if h[n].input.KvInput? && h[n].input.key !in rest then rest + [h[n].input.key] else rest;
    }
  }

  /** A sort for the part of each key: the strict one, or the one that shows the part as given. */
  lemma {:induction false} PickSorts(h: KvHistory, keys: seq<string>, strict: bool) returns (l: seq<seq<Entry<KvValue>>>)
    requires Proper(h)
    ensures |l| == |keys|
    ensures forall j | 0 <= j < |keys| ::
      && IsSort(Earlier, l[j], Unsorted(Part(h, keys[j]), |Part(h, keys[j])|)) && WellFormed(l[j])
      && (Linearizable(KvModel, HistoryOf(l[j])) <==> Linearizable(KvModel, Part(if strict then Strict(h) else h, keys[j])))
  {
    hide Linearizable, IsSort, Proper, Part, Unsorted;
    if keys == [] {
      l := [];
    } else {
      var n := |keys| - 1;
      var rest := PickSorts(h, keys[..n], strict);
      PartProper(h, keys[n]);
      PartStrict(h, keys[n]);
      var es;
      if strict { es := StrictSort(KvModel, Part(h, keys[n])); } else { es := LooseSort(KvModel, Part(h, keys[n])); }
      l := rest + [es];
      assert forall j | 0 <= j < n :: keys[..n][j] == keys[j];
    }
  }

  lemma {:induction false} PickedTask(h: KvHistory, strict: bool) returns (t: Task<string, KvValue>, keys: seq<string>)
    requires AllTyped(h) && Proper(h) && h != []
    ensures t == Plain(t.history) && Prepared(t, h, keys) && ValidTask(t) && t.history != []
    ensures AllLinearizable(t) <==> Linearizable(StoreModel, if strict then Strict(h) else h)
  {
    hide Linearizable, IsSort, Proper, Part, Unsorted, AllTyped, Occurs, Sorted;
    keys := KeysExist(h);
    SomeKey(h, keys);
    var l := PickSorts(h, keys, strict);
    t := Plain(l);
    PreparedValid(t, h, keys);
    BothLocal(h, keys);
  }

  /** Exactly when an answer is possible.  Ok can be given exactly if the history is
      linearizable; illegal, exactly if the strict history is not. */
  lemma {:induction false} PossibleExactly(h: KvHistory)
    requires AllTyped(h) && Proper(h) && h != []
    ensures Possible(h, Ok) <==> Linearizable(StoreModel, h)
    ensures Possible(h, Illegal) <==> !Linearizable(StoreModel, Strict(h))
  {
    hide Linearizable, Proper, AllTyped, Prepared, Answers, AllLinearizable;
    forall keys, l | Prepared(Plain(l), h, keys)
      ensures Answers(Plain(l), Ok) ==> Linearizable(StoreModel, h)
      ensures Answers(Plain(l), Illegal) ==> !Linearizable(StoreModel, Strict(h))
    {
      StoreBetween(Plain(l), h, keys);
    }
    var t, keys := PickedTask(h, false);
    AnswersExactly(t);
    assert Answers(t, Ok) ==> Prepared(Plain(t.history), h, keys) && Answers(Plain(t.history), Ok);
    var t', keys' := PickedTask(h, true);
    AnswersExactly(t');
    assert Answers(t', Illegal) ==> Prepared(Plain(t'.history), h, keys') && Answers(Plain(t'.history), Illegal);
  }

  // ----- a wrong answer

  const GET_X := Op(KvInput(0, "k", ""), KvOutput("x"), 0, 1)
  const PUT_X := Op(KvInput(1, "k", "x"), KvOutput(""), 1, 2)

  /** A get that returns at the very time at which the put it has seen is called: the history is
      linearizable, and the check may answer that it is not. */
  lemma {:induction false} TieExample()
    ensures var h := [GET_X, PUT_X];
      && Proper(h) && AllTyped(h) && !NoTies(h)
      && Linearizable(StoreModel, h) && Possible(h, Ok) && Possible(h, Illegal)
  {
    hide Linearizable, Possible;
    var h := [GET_X, PUT_X];
    assert h[0].ret == h[1].call;
    TieLinearizable();
    StrictTie();
    PossibleExactly(h);
  }

  lemma {:induction false} StrictTie()
    ensures !Linearizable(StoreModel, Strict([GET_X, PUT_X]))
  {
    var k := Strict([GET_X, PUT_X]);
    forall order ensures !Linearization(StoreModel, k, order) {
      GetCannotGoFirst(k, order);
    }
  }

  lemma {:induction false} GetCannotGoFirst(k: KvHistory, order: seq<nat>)
    requires |k| == 2 && k[0].input == GET_X.input && k[0].output == GET_X.output && Precedes(k, 0, 1)
    ensures !Linearization(StoreModel, k, order)
  {
    assert !StepOk(StoreModel, k, map[], 0);
    if |order| == 2 && order[0] == 1 && order[1] == 0 {
      assert Precedes(k, order[1], order[0]);
    }
  }

  lemma {:induction false} TieLinearizable()
    ensures Linearizable(StoreModel, [GET_X, PUT_X])
  {
    var h, order := [GET_X, PUT_X], [1, 0];
    assert order[1..] == [0] && order[1..][1..] == [];
    assert Replays(StoreModel, h, map[], order);
    assert Linearization(StoreModel, h, order);
  }
}
