/** models/kv.go:40-54: what the accepted orders are, said without states. */
module KvValues {
  import opened Linearizability
  import opened Kv

  predicate IsGet(o: Op<KvValue>, key: string) {
    On(o, key) && o.input.op == 0
  }

  predicate IsPut(o: Op<KvValue>, key: string) {
    On(o, key) && o.input.op == 1
  }

  predicate IsAppend(o: Op<KvValue>, key: string) {
    On(o, key) && o.input.op >= 2
  }

  /** The values appended to a key, one after the other. */
  function Appends(h: KvHistory, order: seq<nat>, key: string): string
    requires InRange(h, order)
  {
    if order == [] then ""
    else
      var n := |order| - 1;
      Appends(h, order[..n], key) + if IsAppend(h[order[n]], key) then h[order[n]].input.value else ""
  }

  /** The last put on a key is at `j`. */
  ghost predicate LastPut(h: KvHistory, order: seq<nat>, key: string, j: nat)
    requires InRange(h, order)
  {
    && j < |order| && IsPut(h[order[j]], key)
    && forall i | j < i < |order| :: !IsPut(h[order[i]], key)
  }

  /** The value of a key after these operations: that of the last put, or nothing, followed by
      what was appended since. */
  ghost predicate Holds(h: KvHistory, order: seq<nat>, key: string, value: string)
    requires InRange(h, order)
  {
    if exists j: nat :: LastPut(h, order, key, j) then
      forall j: nat | LastPut(h, order, key, j) :: value == h[order[j]].input.value + Appends(h, order[j + 1..], key)
    else value == Appends(h, order, key)
  }

  lemma {:induction false} LastPutSnoc(h: KvHistory, order: seq<nat>, key: string, x: nat, j: nat)
    requires InRange(h, order) && x < |h| && InRange(h, order + [x])
    ensures LastPut(h, order + [x], key, j) <==>
      if IsPut(h[x], key) then j == |order| else LastPut(h, order, key, j)
  {
    var order' := order + [x];
    assert order'[|order|] == x;
    assert forall i | 0 <= i < |order| :: order'[i] == order[i];
  }

  lemma {:induction false} AppendsSnoc(h: KvHistory, order: seq<nat>, key: string, x: nat)
    requires InRange(h, order) && x < |h| && InRange(h, order + [x])
    ensures Appends(h, order + [x], key) == Appends(h, order, key) + if IsAppend(h[x], key) then h[x].input.value else ""
  {
    assert (order + [x])[..|order|] == order;
  }

  /** One operation more: a put replaces the value, an append extends it, anything else leaves
      it. */
  lemma {:induction false} HoldsSnoc(h: KvHistory, order: seq<nat>, key: string, x: nat, value: string)
    requires InRange(h, order) && x < |h| && InRange(h, order + [x]) && Holds(h, order, key, value)
    ensures Holds(h, order + [x], key,
      if IsPut(h[x], key) then h[x].input.value else if IsAppend(h[x], key) then value + h[x].input.value else value)
  {
    hide Appends;
    var order' := order + [x];
    forall j: nat ensures LastPut(h, order', key, j) <==> if IsPut(h[x], key) then j == |order| else LastPut(h, order, key, j) {
      LastPutSnoc(h, order, key, x, j);
    }
    AppendsSnoc(h, order, key, x);
    if IsPut(h[x], key) {
      assert LastPut(h, order', key, |order|);
      assert order'[|order| + 1..] == [];
      NoAppends(h, key);
    } else if exists j: nat :: LastPut(h, order, key, j) {
      forall j: nat | LastPut(h, order', key, j)
        ensures Appends(h, order'[j + 1..], key) == Appends(h, order[j + 1..], key) + if IsAppend(h[x], key) then h[x].input.value else ""
      {
        assert order'[j + 1..] == order[j + 1..] + [x];
        AppendsSnoc(h, order[j + 1..], key, x);
      }
    }
  }

  lemma {:induction false} NoAppends(h: KvHistory, key: string)
    ensures Appends(h, [], key) == ""
  {
  }

  /** The state of the store after any operations has these values. */
  lemma {:induction false} StoreHolds(h: KvHistory, order: seq<nat>, key: string)
    requires AllTyped(h) && InRange(h, order)
    ensures Holds(h, order, key, Lookup(StateAfter(StoreModel, h, map[], order), key))
    decreases |order|
  {
    hide StateAfter, Holds, Appends;
    if order == [] {
      StartHolds(h, key);
    } else {
      var n := |order| - 1;
      var front, x := order[..n], order[n];
      assert order == front + [x] && Typed(h[x]);
      StoreHolds(h, front, key);
      ReplaysSnoc(StoreModel, h, map[], front, x);
      var store := StateAfter(StoreModel, h, map[], front);
      HoldsSnoc(h, front, key, x, Lookup(store, key));
      StepValue(h, store, x, key);
    }
  }

  /** What one operation does to the value of a key. */
  lemma {:induction false} StepValue(h: KvHistory, store: Store, x: nat, key: string)
    requires x < |h| && Typed(h[x])
    ensures Lookup(StepState(StoreModel, h, store, x), key) ==
      if IsPut(h[x], key) then h[x].input.value
      else if IsAppend(h[x], key) then Lookup(store, key) + h[x].input.value
      else Lookup(store, key)
  {
  }

  lemma {:induction false} StartHolds(h: KvHistory, key: string)
    ensures Holds(h, [], key, Lookup(StateAfter(StoreModel, h, map[], []), key))
  {
  }

  lemma {:induction false} HoldsOne(h: KvHistory, order: seq<nat>, key: string, v: string, w: string)
    requires InRange(h, order) && Holds(h, order, key, v) && Holds(h, order, key, w)
    ensures v == w
  {
  }

  /** Every get returns the value of its key at that point. */
  ghost predicate GetsRight(h: KvHistory, order: seq<nat>)
    requires AllTyped(h) && InRange(h, order)
  {
    forall n | 0 <= n < |order| && h[order[n]].input.op == 0 :: GetRight(h, order, n)
  }

  ghost predicate GetRight(h: KvHistory, order: seq<nat>, n: nat)
    requires InRange(h, order) && n < |order| && Typed(h[order[n]])
  {
    InRange(h, order[..n]) && Holds(h, order[..n], h[order[n]].input.key, h[order[n]].output.value)
  }

  /** The specification accepts an order of operations exactly if every get in it returns the
      value of the last put on its key followed by what was appended since. */
  lemma {:induction false} AcceptedExactly(h: KvHistory, order: seq<nat>)
    requires AllTyped(h) && InRange(h, order)
    ensures Replays(StoreModel, h, map[], order) <==> GetsRight(h, order)
    decreases |order|
  {
    hide Replays, StateAfter, Holds;
    if order == [] {
      NothingToReplay(h);
    } else {
      var n := |order| - 1;
      var front, x := order[..n], order[n];
      assert order == front + [x] && Typed(h[x]);
      AcceptedExactly(h, front);
      ReplaysSnoc(StoreModel, h, map[], front, x);
      LastGet(h, front, x);
      forall i | 0 <= i < n && h[order[i]].input.op == 0 ensures GetRight(h, order, i) <==> GetRight(h, front, i) {
        assert order[..i] == front[..i] && order[i] == front[i];
      }
      assert GetsRight(h, order) <==> GetsRight(h, front) && (h[x].input.op == 0 ==> GetRight(h, order, n)) by {
        SplitGets(h, order);
      }
    }
  }

  lemma {:induction false} NothingToReplay(h: KvHistory)
    ensures Replays(StoreModel, h, map[], [])
  {
  }

  lemma {:induction false} SplitGets(h: KvHistory, order: seq<nat>)
    requires AllTyped(h) && InRange(h, order) && order != []
    requires var n := |order| - 1;
      forall i | 0 <= i < n && h[order[i]].input.op == 0 :: GetRight(h, order, i) <==> GetRight(h, order[..n], i)
    ensures var n := |order| - 1;
      GetsRight(h, order) <==> GetsRight(h, order[..n]) && (h[order[n]].input.op == 0 ==> GetRight(h, order, n))
  {
    hide GetRight;
    var n := |order| - 1;
    assert forall i | 0 <= i < n :: order[..n][i] == order[i];
  }

  lemma {:induction false} LastGet(h: KvHistory, front: seq<nat>, x: nat)
    requires AllTyped(h) && InRange(h, front) && x < |h| && Typed(h[x]) && InRange(h, front + [x])
    ensures StepOk(StoreModel, h, StateAfter(StoreModel, h, map[], front), x) <==>
      (h[x].input.op == 0 ==> GetRight(h, front + [x], |front|))
  {
    hide StateAfter, Holds;
    var store := StateAfter(StoreModel, h, map[], front);
    assert (front + [x])[..|front|] == front && (front + [x])[|front|] == x;
    StoreHolds(h, front, h[x].input.key);
    if h[x].input.op == 0 && Holds(h, front, h[x].input.key, h[x].output.value) {
      HoldsOne(h, front, h[x].input.key, h[x].output.value, Lookup(store, h[x].input.key));
    }
  }
}
