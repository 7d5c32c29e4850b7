/** models/kv.go: the sequential specification of one key of a key/value store, the split of a
    history by key, and the theorem that makes the split sound and complete. */
module Kv {
  import opened Linearizability
  import opened Sorting

  /** The dynamic types that the model expects behind `interface{}`. */
  datatype KvValue = KvInput(op: nat, key: string, value: string) | KvOutput(value: string)

  type KvHistory = History<KvValue>

  /** kv.go:40-54.  A value of the wrong dynamic type, on which Go panics, is refused. */
  function KvStep(state: string, input: KvValue, output: KvValue): (bool, string) {
    if !input.KvInput? || !output.KvOutput? then (false, state)
    else if input.op == 0 then (output.value == state, state)
    else if input.op == 1 then (true, input.value)
    else (true, state + input.value)
  }

  /** kv.go:17-54; `Equal` is left nil there, which means `==`. */
  const KvModel: Model<string, KvValue> := Model("", KvStep, (s: string, t: string) => s == t)

  // ----- the whole store

  type Store = map<string, string>

  function Lookup(store: Store, key: string): string {
    if key in store then store[key] else ""
  }

  /** Get, put and append on a map in which absent keys read as the empty string. */
  function StoreStep(store: Store, input: KvValue, output: KvValue): (bool, Store) {
    if !input.KvInput? || !output.KvOutput? then (false, store)
    else if input.op == 0 then (output.value == Lookup(store, input.key), store)
    else if input.op == 1 then (true, store[input.key := input.value])
    else (true, store[input.key := Lookup(store, input.key) + input.value])
  }

  const StoreModel: Model<Store, KvValue> := Model(map[], StoreStep, (s: Store, t: Store) => s == t)

  lemma {:induction false} EqualityRespectsSteps()
    ensures EqualRespectsStep(KvModel) && EqualRespectsStep(StoreModel)
  {
  }

  predicate Typed(o: Op<KvValue>) {
    o.input.KvInput? && o.output.KvOutput?
  }

  ghost predicate AllTyped(h: KvHistory) {
    forall x | 0 <= x < |h| :: Typed(h[x])
  }

  predicate On(o: Op<KvValue>, key: string) {
    o.input.KvInput? && o.input.key == key
  }

  /** The operations on one key, in their original order: one part of the partition. */
  function Part(h: KvHistory, key: string): KvHistory {
    if h == [] then []
    else Part(h[..|h| - 1], key) + if On(h[|h| - 1], key) then [h[|h| - 1]] else []
  }

  /** Where the operations of a part are in the history. */
  function Places(h: KvHistory, key: string): (ps: seq<nat>)
    ensures |ps| == |Part(h, key)|
    ensures forall j | 0 <= j < |ps| :: ps[j] < |h| && h[ps[j]] == Part(h, key)[j] && On(h[ps[j]], key)
    ensures forall i, j | 0 <= i < j < |ps| :: ps[i] < ps[j]
  {
    if h == [] then []
    else Places(h[..|h| - 1], key) + if On(h[|h| - 1], key) then [|h| - 1] else []
  }

  lemma {:induction false} PlacesComplete(h: KvHistory, key: string, x: nat)
    requires x < |h| && On(h[x], key)
    ensures x in Places(h, key)
  {
    if x < |h| - 1 { PlacesComplete(h[..|h| - 1], key, x); }
  }

  // ----- orders of one key's operations, by their places in the whole history

  ghost predicate RealTime(h: KvHistory, order: seq<nat>)
    requires InRange(h, order)
  {
    forall i, j | 0 <= i < j < |order| :: !Precedes(h, order[j], order[i])
  }

  /** `order` linearizes the operations on `key`. */
  ghost predicate KeyOrder(h: KvHistory, key: string, order: seq<nat>) {
    && InRange(h, order) && Distinct(order)
    && (forall x | 0 <= x < |h| :: x in order <==> On(h[x], key))
    && RealTime(h, order)
    && Replays(KvModel, h, "", order)
  }

  function Via(ps: seq<nat>, order: seq<nat>): (r: seq<nat>)
    requires forall i | 0 <= i < |order| :: order[i] < |ps|
    ensures |r| == |order| && forall i | 0 <= i < |r| :: r[i] == ps[order[i]]
  {
    seq(|order|, i requires 0 <= i < |order| => ps[order[i]])
  }

  lemma {:induction false} ReplaysVia(h: KvHistory, key: string, s: string, order: seq<nat>)
    requires InRange(Part(h, key), order)
    ensures Replays(KvModel, Part(h, key), s, order) <==> Replays(KvModel, h, s, Via(Places(h, key), order))
    decreases |order|
  {
    if order != [] {
      var ps, x := Places(h, key), order[0];
      assert Part(h, key)[x] == h[ps[x]];
      ReplaysVia(h, key, StepState(KvModel, h, s, ps[x]), order[1..]);
      assert Via(ps, order)[1..] == Via(ps, order[1..]);
    }
  }

  lemma {:induction false} PartToKey(h: KvHistory, key: string, order: seq<nat>)
    requires Linearization(KvModel, Part(h, key), order)
    ensures KeyOrder(h, key, Via(Places(h, key), order))
  {
    var ps := Places(h, key);
    var g := Via(ps, order);
    ReplaysVia(h, key, "", order);
    PermutationIsOnto(order);
    forall x | 0 <= x < |h| ensures x in g <==> On(h[x], key) {
      if On(h[x], key) {
        PlacesComplete(h, key, x);
        var j :| 0 <= j < |ps| && ps[j] == x;
        assert j in order;
        var i :| 0 <= i < |order| && order[i] == j;
        assert g[i] == x;
      }
    }
    forall i, j | 0 <= i < j < |g| ensures g[i] != g[j] && !Precedes(h, g[j], g[i]) {
      assert order[i] != order[j] && !Precedes(Part(h, key), order[j], order[i]);
    }
  }

  function IndexOf(ps: seq<nat>, x: nat): (j: nat)
    requires x in ps
    ensures j < |ps| && ps[j] == x
  {
    if ps[0] == x then 0 else 1 + IndexOf(ps[1..], x)
  }

  lemma {:induction false} KeyOrderSize(h: KvHistory, key: string, g: seq<nat>)
    requires KeyOrder(h, key, g)
    ensures |g| == |Part(h, key)| && forall i | 0 <= i < |g| :: g[i] in Places(h, key)
  {
    hide Replays, Part;
    var ps := Places(h, key);
    forall i | 0 <= i < |g| ensures g[i] in ps { PlacesComplete(h, key, g[i]); }
    DistinctSize(g);
    DistinctSize(ps);
    assert Elems(g) == Elems(ps);
  }

  lemma {:induction false} KeyToPart(h: KvHistory, key: string, g: seq<nat>)
    requires KeyOrder(h, key, g)
    ensures Linearizable(KvModel, Part(h, key))
  {
    hide Replays, Part, Places;
    var ps, part := Places(h, key), Part(h, key);
    KeyOrderSize(h, key, g);
    var order := seq(|g|, i requires 0 <= i < |g| => IndexOf(ps, g[i]));
    assert Via(ps, order) == g;
    ReplaysVia(h, key, "", order);
    forall i, j | 0 <= i < j < |order| ensures order[i] != order[j] && !Precedes(part, order[j], order[i]) {
      assert ps[order[i]] == g[i] && ps[order[j]] == g[j];
    }
    assert Linearization(KvModel, part, order);
  }

  // ----- from the store to its keys

  function OnKey(h: KvHistory, key: string, order: seq<nat>): (r: seq<nat>)
    requires InRange(h, order)
    ensures InRange(h, r)
    ensures forall x :: x in r <==> x in order && On(h[x], key)
  {
    if order == [] then []
    else (if On(h[order[0]], key) then [order[0]] else []) + OnKey(h, key, order[1..])
  }

  lemma {:induction false} OnKeyKeepsOrder(h: KvHistory, key: string, order: seq<nat>)
    requires InRange(h, order) && Distinct(order) && RealTime(h, order)
    ensures Distinct(OnKey(h, key, order)) && RealTime(h, OnKey(h, key, order))
    decreases |order|
  {
    if order != [] {
      OnKeyKeepsOrder(h, key, order[1..]);
      var tail := OnKey(h, key, order[1..]);
      forall i | 0 <= i < |tail| ensures tail[i] != order[0] && !Precedes(h, tail[i], order[0]) {
        assert tail[i] in order[1..];
      }
    }
  }

  /** One step of the store is one step of the key it is on, and no step of any other key. */
  lemma {:induction false} StepOnKey(h: KvHistory, key: string, store: Store, x: nat)
    requires x < |h|
    ensures On(h[x], key) ==>
      && StepOk(StoreModel, h, store, x) == StepOk(KvModel, h, Lookup(store, key), x)
      && Lookup(StepState(StoreModel, h, store, x), key) == StepState(KvModel, h, Lookup(store, key), x)
    ensures !On(h[x], key) ==> Lookup(StepState(StoreModel, h, store, x), key) == Lookup(store, key)
  {
  }

  lemma {:induction false} OnKeyReplays(h: KvHistory, key: string, store: Store, order: seq<nat>)
    requires InRange(h, order) && Replays(StoreModel, h, store, order)
    ensures Replays(KvModel, h, Lookup(store, key), OnKey(h, key, order))
    decreases |order|
  {
    hide StepOk, StepState, Lookup, On;
    if order != [] {
      var tail := OnKey(h, key, order[1..]);
      StepOnKey(h, key, store, order[0]);
      OnKeyReplays(h, key, StepState(StoreModel, h, store, order[0]), order[1..]);
      assert ([order[0]] + tail)[1..] == tail && [] + tail == tail;
    }
  }

  lemma {:induction false} StoreToKeys(h: KvHistory, key: string)
    requires Linearizable(StoreModel, h)
    ensures Linearizable(KvModel, Part(h, key))
  {
    var order :| Linearization(StoreModel, h, order);
    PermutationIsOnto(order);
    OnKeyKeepsOrder(h, key, order);
    OnKeyReplays(h, key, map[], order);
    KeyToPart(h, key, OnKey(h, key, order));
  }

  // ----- from the keys to the store

  function Key(o: Op<KvValue>): string {
    if o.input.KvInput? then o.input.key else ""
  }

  /** An order of unfinished operations on one key that goes on from its current value. */
  ghost predicate KeyRest(h: KvHistory, done: set<nat>, value: string, key: string, rest: seq<nat>) {
    && InRange(h, rest) && Distinct(rest)
    && (forall i | 0 <= i < |rest| :: On(h[rest[i]], key) && rest[i] !in done)
    && RealTime(h, rest)
    && Replays(KvModel, h, value, rest)
  }

  /** What is left to merge: an order for each key, and every unfinished operation in one. */
  ghost predicate Mergeable(h: KvHistory, done: set<nat>, store: Store, rest: map<string, seq<nat>>) {
    && (forall x | 0 <= x < |h| && x !in done :: Key(h[x]) in rest && x in rest[Key(h[x])])
    && (forall k | k in rest :: KeyRest(h, done, Lookup(store, k), k, rest[k]))
  }

  lemma {:induction false} EarliestReturn(h: KvHistory, todo: set<nat>) returns (y: nat)
    requires todo != {} && forall x | x in todo :: x < |h|
    ensures y in todo && forall z | z in todo :: h[y].ret <= h[z].ret
    decreases |todo|
  {
    y :| y in todo;
    if todo != {y} {
      var y' := EarliestReturn(h, todo - {y});
      if h[y'].ret < h[y].ret { y := y'; }
    }
  }

  /** Some operation can go next: the first one, in its key's order, of the key that the
      operation with the earliest return is on. */
  lemma {:induction false} NextToMerge(h: KvHistory, done: set<nat>, store: Store, rest: map<string, seq<nat>>, z: nat) returns (x: nat)
    requires SaneTimes(h) && Mergeable(h, done, store, rest)
    requires z < |h| && z !in done
    ensures Ready(h, done, x) && StepOk(StoreModel, h, store, x)
    ensures var k := Key(h[x]); k in rest && rest[k] != [] && rest[k][0] == x
  {
    hide StepOk, StepState, Lookup;
    var todo := set z: nat | z < |h| && z !in done;
    assert z in todo;
    var y := EarliestReturn(h, todo);
    var k := Key(h[y]);
    assert KeyRest(h, done, Lookup(store, k), k, rest[k]);
    x := rest[k][0];
    StepOnKey(h, k, store, x);
    assert h[x].call <= h[y].ret by {
      var j :| 0 <= j < |rest[k]| && rest[k][j] == y;
      assert j > 0 ==> !Precedes(h, rest[k][j], rest[k][0]);
    }
    forall z: nat | z < |h| && z !in done ensures !Precedes(h, z, x) {
      assert z in todo;
    }
  }

  lemma {:induction false} KeyRestStep(h: KvHistory, done: set<nat>, store: Store, key: string, rest: seq<nat>, x: nat)
    requires KeyRest(h, done, Lookup(store, key), key, rest) && x < |h|
    requires On(h[x], key) ==> rest != [] && rest[0] == x
    ensures KeyRest(h, done + {x}, Lookup(StepState(StoreModel, h, store, x), key), key, if On(h[x], key) then rest[1..] else rest)
  {
    hide StepOk, StepState, Lookup;
    StepOnKey(h, key, store, x);
    if On(h[x], key) {
      assert forall i | 0 <= i < |rest[1..]| :: rest[1..][i] == rest[i + 1];
    }
  }

  lemma {:induction false} MergeStep(h: KvHistory, done: set<nat>, store: Store, rest: map<string, seq<nat>>, x: nat)
    requires Mergeable(h, done, store, rest) && x < |h|
    requires var k := Key(h[x]); k in rest && rest[k] != [] && rest[k][0] == x
    ensures var k := Key(h[x]);
      Mergeable(h, done + {x}, StepState(StoreModel, h, store, x), rest[k := rest[k][1..]])
  {
    hide StepOk, StepState, Lookup, InRange, Distinct, RealTime, Replays;
    var k := Key(h[x]);
    var store', rest' := StepState(StoreModel, h, store, x), rest[k := rest[k][1..]];
    assert KeyRest(h, done, Lookup(store, k), k, rest[k]);
    forall z | 0 <= z < |h| && z !in done + {x} ensures Key(h[z]) in rest' && z in rest'[Key(h[z])] {
      assert rest[k] == [x] + rest[k][1..];
    }
    forall c | c in rest' ensures KeyRest(h, done + {x}, Lookup(store', c), c, rest'[c]) {
      assert On(h[x], k);
      KeyRestStep(h, done, store, c, rest[c], x);
    }
  }

  lemma {:induction false} Merge(h: KvHistory, done: set<nat>, store: Store, rest: map<string, seq<nat>>) returns (order: seq<nat>)
    requires SaneTimes(h) && Mergeable(h, done, store, rest)
    requires forall z | z in done :: z < |h|
    ensures LegalFrom(StoreModel, h, done, store, order) && |done| + |order| == |h|
    decreases |h| - |done|
  {
    hide Mergeable, StepOk, StepState;
    FullSet(done, |h|);
    if |done| < |h| {
      var z: nat :| z < |h| && z !in done;
      var x := NextToMerge(h, done, store, rest, z);
      MergeStep(h, done, store, rest, x);
      var k := Key(h[x]);
      FullSet(done + {x}, |h|);
      var tail := Merge(h, done + {x}, StepState(StoreModel, h, store, x), rest[k := rest[k][1..]]);
      order := [x] + tail;
      assert order[1..] == tail;
    } else {
      order := [];
    }
  }

  ghost predicate EveryKeyLinearizable(h: KvHistory) {
    forall key :: Linearizable(KvModel, Part(h, key))
  }

  /** Locality.  The store's history is linearizable exactly when each key's part is. */
  lemma {:induction false} Locality(h: KvHistory)
    requires AllTyped(h) && SaneTimes(h)
    ensures Linearizable(StoreModel, h) <==> EveryKeyLinearizable(h)
  {
    hide Linearizable;
    if Linearizable(StoreModel, h) {
      forall key ensures Linearizable(KvModel, Part(h, key)) { StoreToKeys(h, key); }
    }
    if EveryKeyLinearizable(h) {
      KeysToStore(h);
    }
  }

  lemma {:induction false} KeysToStore(h: KvHistory)
    requires AllTyped(h) && SaneTimes(h)
    requires EveryKeyLinearizable(h)
    ensures Linearizable(StoreModel, h)
  {
    var keys := set x | 0 <= x < |h| :: Key(h[x]);
    var rest := KeyOrders(h, keys);
    forall x | 0 <= x < |h| ensures Key(h[x]) in rest && x in rest[Key(h[x])] {
      assert Key(h[x]) in keys && Typed(h[x]);
    }
    forall k | k in rest ensures KeyRest(h, {}, Lookup(map[], k), k, rest[k]) {
      assert KeyOrder(h, k, rest[k]);
    }
    var order := Merge(h, {}, map[], rest);
    LinearizableBySteps(StoreModel, h);
  }

  /** One order per key, from the linearizations of the parts. */
  lemma {:induction false} KeyOrders(h: KvHistory, keys: set<string>) returns (rest: map<string, seq<nat>>)
    requires EveryKeyLinearizable(h)
    ensures rest.Keys == keys && forall k | k in keys :: KeyOrder(h, k, rest[k])
    decreases |keys|
  {
    if keys == {} {
      rest := map[];
    } else {
      var k :| k in keys;
      var others := KeyOrders(h, keys - {k});
      var order :| Linearization(KvModel, Part(h, k), order);
      PartToKey(h, k, order);
      rest := others[k := Via(Places(h, k), order)];
    }
  }

  // ----- the partition

  ghost predicate Occurs(h: KvHistory, key: string) {
    exists x | 0 <= x < |h| :: On(h[x], key)
  }

  lemma {:induction false} AbsentKey(h: KvHistory, key: string)
    requires !Occurs(h, key)
    ensures Part(h, key) == []
  {
    if h != [] {
      assert !On(h[|h| - 1], key);
      AbsentKey(h[..|h| - 1], key);
    }
  }

  /** kv.go:18-34: one part for each key that occurs, in the order of the keys. */
  method Partition(history: KvHistory) returns (parts: seq<KvHistory>, keys: seq<string>)
    requires forall x | 0 <= x < |history| :: history[x].input.KvInput?
    ensures |parts| == |keys| && forall j | 0 <= j < |parts| :: parts[j] == Part(history, keys[j])
    ensures Distinct(keys) && Sorted(Less, keys) && forall i, j | 0 <= i < j < |keys| :: Before(keys[i], keys[j])
    ensures forall key :: key in keys <==> Occurs(history, key)
  {
    hide Part, Occurs, Sorted, Less, Before, Ordering;
    var m := GroupByKey(history);
    var unsorted := KeysOf(m);
    LessIsOrdering();
    var sorted := Sort(Less, unsorted);
    SameElements(sorted, unsorted);
    NoNewDuplicates(sorted, unsorted);
    SortedAscends(sorted);
    keys := sorted;
    parts := [];
    for j := 0 to |sorted|
      invariant |parts| == j && forall i | 0 <= i < j :: parts[i] == Part(history, keys[i])
    {
      assert sorted[j] in sorted;
      parts := parts + [m[sorted[j]]];
    }
  }

  /** kv.go:24-27: the keys, in whatever order the map yields them. */
  method KeysOf<T>(m: map<string, T>) returns (keys: seq<string>)
    ensures Distinct(keys) && forall k :: k in keys <==> k in m
  {
    keys := [];
    var left := m.Keys;
    while left != {}
      invariant left <= m.Keys && Distinct(keys)
      invariant forall k :: k in keys <==> k in m.Keys - left
      decreases left
    {
      var k :| k in left;
      assert k !in keys;
      keys := keys + [k];
      left := left - {k};
    }
  }

  /** kv.go:19-23. */
  method GroupByKey(history: KvHistory) returns (m: map<string, KvHistory>)
    requires forall x | 0 <= x < |history| :: history[x].input.KvInput?
    ensures forall key :: key in m <==> Occurs(history, key)
    ensures forall key | key in m :: m[key] == Part(history, key)
  {
    m := map[];
    for i := 0 to |history|
      invariant forall key :: key in m <==> Occurs(history[..i], key)
      invariant forall key | key in m :: m[key] == Part(history[..i], key)
    {
      var v := history[i];
      var key := v.input.key;
      ghost var before, after := history[..i], history[..i + 1];
      assert after[..i] == before && after[i] == v;
      if key !in m { AbsentKey(before, key); }
      OccursSnoc(before, v);
      assert after == before + [v];
      m := m[key := (if key in m then m[key] else []) + [v]];
    }
    assert history[..|history|] == history;
  }

  lemma {:induction false} OccursSnoc(h: KvHistory, o: Op<KvValue>)
    ensures forall key :: Occurs(h + [o], key) <==> Occurs(h, key) || On(o, key)
  {
    forall key ensures Occurs(h + [o], key) <==> Occurs(h, key) || On(o, key) {
      if Occurs(h, key) {
        var x :| 0 <= x < |h| && On(h[x], key);
        assert On((h + [o])[x], key);
      }
      if On(o, key) { assert On((h + [o])[|h|], key); }
    }
  }

  /** Locality, for the parts that `Partition` returns. */
  lemma {:induction false} PartitionLocality(h: KvHistory, keys: seq<string>, parts: seq<KvHistory>)
    requires AllTyped(h) && SaneTimes(h)
    requires |parts| == |keys| && forall j | 0 <= j < |parts| :: parts[j] == Part(h, keys[j])
    requires forall key :: key in keys <==> Occurs(h, key)
    ensures Linearizable(StoreModel, h) <==> forall j | 0 <= j < |parts| :: Linearizable(KvModel, parts[j])
  {
    hide Linearizable, SaneTimes, AllTyped;
    Locality(h);
    if forall j | 0 <= j < |parts| :: Linearizable(KvModel, parts[j]) {
      forall key ensures Linearizable(KvModel, Part(h, key)) {
        if key in keys {
          var j :| 0 <= j < |keys| && keys[j] == key;
          assert Linearizable(KvModel, parts[j]);
        } else {
          AbsentKey(h, key);
          EmptyLinearizable();
        }
      }
    }
  }

  lemma {:induction false} EmptyLinearizable()
    ensures Linearizable(KvModel, [])
  {
    assert Linearization(KvModel, [], []);
  }
}
