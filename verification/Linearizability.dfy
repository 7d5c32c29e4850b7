/** What porcupine decides: linearizability of a finite history.

    A history is a sequence of operations, identified by their index.  Each has an input,
    an output and the two points in time (or in the entry list) between which it ran. */
module Linearizability {

  datatype Option<+T> = None | Some(value: T)

  /** porcupine/model.go: the sequential specification.  `V` stands for the `interface{}` of
      inputs and outputs, `S` for the `interface{}` of states. */
  datatype Model<!S, !V> = Model(init: S, step: (S, V, V) -> (bool, S), equal: (S, S) -> bool)

  datatype Op<V> = Op(input: V, output: V, call: int, ret: int)

  type History<V> = seq<Op<V>>

  /** What `Equal` must satisfy: states that are equal cannot be told apart by any step. */
  ghost predicate EqualRespectsStep<S(!new), V(!new)>(m: Model<S, V>) {
    forall s, t, i, o | m.equal(s, t) ::
      && m.step(s, i, o).0 == m.step(t, i, o).0
      && (m.step(s, i, o).0 ==> m.equal(m.step(s, i, o).1, m.step(t, i, o).1))
  }

  /** Operation `a` returned before operation `b` was called. */
  predicate Precedes<V>(h: History<V>, a: nat, b: nat)
    requires a < |h| && b < |h|
  {
    h[a].ret < h[b].call
  }

  predicate StepOk<S, V>(m: Model<S, V>, h: History<V>, s: S, x: nat)
    requires x < |h|
  {
    m.step(s, h[x].input, h[x].output).0
  }

  function StepState<S, V>(m: Model<S, V>, h: History<V>, s: S, x: nat): S
    requires x < |h|
  {
    m.step(s, h[x].input, h[x].output).1
  }

  function Elems(order: seq<nat>): set<nat> {
    set x | x in order
  }

  ghost predicate InRange<V>(h: History<V>, order: seq<nat>) {
    forall i | 0 <= i < |order| :: order[i] < |h|
  }

  ghost predicate Distinct<T>(s: seq<T>) {
    forall i, j | 0 <= i < j < |s| :: s[i] != s[j]
  }

  /** Every step of the sequential specification accepts, in the given order, from state `s`. */
  predicate Replays<S, V>(m: Model<S, V>, h: History<V>, s: S, order: seq<nat>) {
    order == [] ||
    (order[0] < |h| && StepOk(m, h, s, order[0]) && Replays(m, h, StepState(m, h, s, order[0]), order[1..]))
  }

  function StateAfter<S, V>(m: Model<S, V>, h: History<V>, s: S, order: seq<nat>): S
    requires InRange(h, order)
  {
    if order == [] then s else StateAfter(m, h, StepState(m, h, s, order[0]), order[1..])
  }

  lemma {:induction false} ReplaysAt<S, V>(m: Model<S, V>, h: History<V>, s: S, order: seq<nat>, k: nat)
    requires Replays(m, h, s, order) && InRange(h, order) && k < |order|
    ensures InRange(h, order[..k]) && InRange(h, order[..k + 1])
    ensures StepOk(m, h, StateAfter(m, h, s, order[..k]), order[k])
    ensures StateAfter(m, h, s, order[..k + 1]) == StepState(m, h, StateAfter(m, h, s, order[..k]), order[k])
    decreases |order|
  {
    if k == 0 {
      assert order[..1][1..] == [];
    } else {
      var s' := StepState(m, h, s, order[0]);
      ReplaysAt(m, h, s', order[1..], k - 1);
      assert order[..k][1..] == order[1..][..k - 1];
      assert order[..k + 1][1..] == order[1..][..k];
    }
  }

  /** One operation more at the end. */
  lemma {:induction false} ReplaysSnoc<S, V>(m: Model<S, V>, h: History<V>, s: S, order: seq<nat>, x: nat)
    requires InRange(h, order) && x < |h|
    ensures InRange(h, order + [x])
    ensures StateAfter(m, h, s, order + [x]) == StepState(m, h, StateAfter(m, h, s, order), x)
    ensures Replays(m, h, s, order + [x]) <==> Replays(m, h, s, order) && StepOk(m, h, StateAfter(m, h, s, order), x)
    decreases |order|
  {
    if order == [] {
      assert order + [x] == [x] && [x][1..] == [];
    } else {
      assert (order + [x])[1..] == order[1..] + [x];
      ReplaysSnoc(m, h, StepState(m, h, s, order[0]), order[1..], x);
    }
  }

  // ----- the definition: a permutation that respects real time and replays

  ghost predicate Linearization<S, V>(m: Model<S, V>, h: History<V>, order: seq<nat>) {
    && |order| == |h|
    && InRange(h, order)
    && Distinct(order)
    && (forall i, j | 0 <= i < j < |order| :: !Precedes(h, order[j], order[i]))
    && Replays(m, h, m.init, order)
  }

  ghost predicate Linearizable<S, V>(m: Model<S, V>, h: History<V>) {
    exists order :: Linearization(m, h, order)
  }

  /** A legal prefix: distinct operations, each after everything that returned before it was
      called, accepted by the specification. */
  ghost predicate LegalPrefix<S, V>(m: Model<S, V>, h: History<V>, p: seq<nat>) {
    && InRange(h, p)
    && Distinct(p)
    && (forall j, a: nat | 0 <= j < |p| && a < |h| && Precedes(h, a, p[j]) :: a in p[..j])
    && Replays(m, h, m.init, p)
  }

  // ----- the same, one operation at a time

  /** `x` may be linearized next, once the operations in `done` have been. */
  ghost predicate Ready<V>(h: History<V>, done: set<nat>, x: nat) {
    && x < |h|
    && x !in done
    && forall y: nat | y < |h| && y !in done :: !Precedes(h, y, x)
  }

  ghost predicate LegalFrom<S, V>(m: Model<S, V>, h: History<V>, done: set<nat>, s: S, order: seq<nat>)
    ensures LegalFrom(m, h, done, s, order) ==> InRange(h, order)
    decreases |order|
  {
    order == [] ||
    (&& Ready(h, done, order[0])
     && StepOk(m, h, s, order[0])
     && LegalFrom(m, h, done + {order[0]}, StepState(m, h, s, order[0]), order[1..]))
  }

  lemma {:induction false} ElemsCons(order: seq<nat>)
    requires order != []
    ensures Elems(order) == {order[0]} + Elems(order[1..])
  {
    assert order == [order[0]] + order[1..];
  }

  lemma {:induction false} ElemsAppend(order: seq<nat>, x: nat)
    ensures Elems(order + [x]) == Elems(order) + {x}
  {
  }

  lemma {:induction false} DistinctSize(order: seq<nat>)
    requires Distinct(order)
    ensures |Elems(order)| == |order|
  {
    if order != [] {
      DistinctSize(order[1..]);
      ElemsCons(order);
      assert order[0] !in Elems(order[1..]);
    }
  }

  /** A legal continuation never repeats an operation and never touches a finished one. */
  lemma {:induction false} LegalFromDistinct<S, V>(m: Model<S, V>, h: History<V>, done: set<nat>, s: S, order: seq<nat>)
    requires LegalFrom(m, h, done, s, order)
    ensures Distinct(order)
    ensures Elems(order) !! done
    decreases |order|
  {
    if order != [] {
      LegalFromDistinct(m, h, done + {order[0]}, StepState(m, h, s, order[0]), order[1..]);
      assert forall i | 1 <= i < |order| :: order[i] == order[1..][i - 1] && order[i] in Elems(order[1..]);
      ElemsCons(order);
    }
  }

  /** Pushing one operation at the end of a legal continuation. */
  lemma {:induction false} LegalFromAppend<S, V>(m: Model<S, V>, h: History<V>, done: set<nat>, s: S, order: seq<nat>, x: nat)
    requires LegalFrom(m, h, done, s, order)
    requires Ready(h, done + Elems(order), x)
    requires StepOk(m, h, StateAfter(m, h, s, order), x)
    ensures LegalFrom(m, h, done, s, order + [x])
    ensures StateAfter(m, h, s, order + [x]) == StepState(m, h, StateAfter(m, h, s, order), x)
    decreases |order|
  {
    if order == [] {
      assert done + Elems(order) == done;
      assert order + [x] == [x];
    } else {
      ElemsCons(order);
      assert done + Elems(order) == done + {order[0]} + Elems(order[1..]);
      LegalFromAppend(m, h, done + {order[0]}, StepState(m, h, s, order[0]), order[1..], x);
      assert (order + [x])[1..] == order[1..] + [x];
    }
  }

  /** Popping: a prefix of a legal continuation is legal. */
  lemma {:induction false} LegalFromPrefix<S, V>(m: Model<S, V>, h: History<V>, done: set<nat>, s: S, order: seq<nat>, k: nat)
    requires LegalFrom(m, h, done, s, order)
    requires k <= |order|
    ensures LegalFrom(m, h, done, s, order[..k])
    ensures k < |order| ==> Ready(h, done + Elems(order[..k]), order[k])
    ensures k < |order| ==> StepOk(m, h, StateAfter(m, h, s, order[..k]), order[k])
    ensures k < |order| ==>
      StateAfter(m, h, s, order[..k + 1]) == StepState(m, h, StateAfter(m, h, s, order[..k]), order[k])
    decreases |order|
  {
    if k == 0 {
      assert done + Elems(order[..0]) == done;
      if order != [] { assert order[..1] == [order[0]]; }
    } else {
      LegalFromPrefix(m, h, done + {order[0]}, StepState(m, h, s, order[0]), order[1..], k - 1);
      assert order[..k][1..] == order[1..][..k - 1];
      ElemsCons(order[..k]);
      assert done + Elems(order[..k]) == done + {order[0]} + Elems(order[1..][..k - 1]);
      if k < |order| { assert order[..k + 1][1..] == order[1..][..k]; }
    }
  }

  /** Generalised legal prefix: what `LegalFrom` means without recursion. */
  ghost predicate Closed<V>(h: History<V>, done: set<nat>, order: seq<nat>)
    requires InRange(h, order)
  {
    && Distinct(order)
    && Elems(order) !! done
    && forall j, a: nat | 0 <= j < |order| && a < |h| && Precedes(h, a, order[j]) :: a in done || a in order[..j]
  }

  ghost predicate SaneTimes<V>(h: History<V>) {
    forall x | 0 <= x < |h| :: h[x].call <= h[x].ret
  }

  lemma {:induction false} LegalFromMeans<S, V>(m: Model<S, V>, h: History<V>, done: set<nat>, s: S, order: seq<nat>)
    requires SaneTimes(h)
    requires InRange(h, order)
    ensures LegalFrom(m, h, done, s, order) <==> Closed(h, done, order) && Replays(m, h, s, order)
    decreases |order|
  {
    if order != [] {
      var x, tail := order[0], order[1..];
      LegalFromMeans(m, h, done + {x}, StepState(m, h, s, x), tail);
      ClosedCons(h, done, order);
    }
  }

  lemma {:induction false} ClosedCons<V>(h: History<V>, done: set<nat>, order: seq<nat>)
    requires SaneTimes(h)
    requires InRange(h, order) && order != []
    ensures Closed(h, done, order) <==> Ready(h, done, order[0]) && Closed(h, done + {order[0]}, order[1..])
  {
    var x, tail := order[0], order[1..];
    ElemsCons(order);
    assert forall j | 1 <= j < |order| :: order[j] == tail[j - 1] && order[..j] == [x] + tail[..j - 1];
    if Closed(h, done, order) {
      assert forall a: nat | a < |h| && Precedes(h, a, x) :: a in done || a in order[..0];
      assert forall i | 0 <= i < |tail| :: tail[i] == order[i + 1];
      forall j, a: nat | 0 <= j < |tail| && a < |h| && Precedes(h, a, tail[j])
        ensures a in done + {x} || a in tail[..j]
      {
        assert a in done || a in order[..j + 1];
      }
    }
    if Ready(h, done, x) && Closed(h, done + {x}, tail) {
      forall j, a: nat | 0 <= j < |order| && a < |h| && Precedes(h, a, order[j])
        ensures a in done || a in order[..j]
      {
        if j > 0 { assert a in done + {x} || a in tail[..j - 1]; }
      }
      assert forall i | 0 <= i < |tail| :: tail[i] in Elems(tail);
    }
  }

  /** The step-by-step form describes exactly the legal prefixes. */
  lemma {:induction false} LegalFromIsLegalPrefix<S, V>(m: Model<S, V>, h: History<V>, p: seq<nat>)
    requires SaneTimes(h)
    ensures LegalFrom(m, h, {}, m.init, p) <==> LegalPrefix(m, h, p)
  {
    if InRange(h, p) {
      LegalFromMeans(m, h, {}, m.init, p);
      var none: set<nat> := {};
      assert Elems(p) !! none;
      if Closed(h, none, p) {
        forall j, a: nat | 0 <= j < |p| && a < |h| && Precedes(h, a, p[j]) ensures a in p[..j] {
          assert a in none || a in p[..j];
        }
      }
      if LegalPrefix(m, h, p) {
        forall j, a: nat | 0 <= j < |p| && a < |h| && Precedes(h, a, p[j]) ensures a in none || a in p[..j] {
          assert a in p[..j];
        }
      }
    }
  }

  /** A legal prefix that holds every operation is a linearization, and the other way round. */
  lemma {:induction false} FullPrefixIsLinearization<S, V>(m: Model<S, V>, h: History<V>, p: seq<nat>)
    requires SaneTimes(h)
    ensures Linearization(m, h, p) <==> LegalPrefix(m, h, p) && |p| == |h|
  {
    if InRange(h, p) && Distinct(p) && |p| == |h| {
      PermutationIsOnto(p);
      if Linearization(m, h, p) {
        forall j, a: nat | 0 <= j < |p| && a < |h| && Precedes(h, a, p[j])
          ensures a in p[..j]
        {
          assert a in p;
          var i :| 0 <= i < |p| && p[i] == a;
        }
      }
      if LegalPrefix(m, h, p) {
        forall i, j | 0 <= i < j < |p|
          ensures !Precedes(h, p[j], p[i])
        {
          assert p[j] !in p[..i];
        }
      }
    }
  }

  lemma {:induction false} FullSet(s: set<nat>, n: nat)
    requires forall x | x in s :: x < n
    ensures |s| <= n
    ensures |s| == n <==> forall x: nat | x < n :: x in s
  {
    if n > 0 {
      var t := s - {n - 1};
      FullSet(t, n - 1);
      assert n - 1 in s ==> s == t + {n - 1};
      assert n - 1 !in s ==> s == t;
    }
  }

  lemma {:induction false} PermutationIsOnto(p: seq<nat>)
    requires Distinct(p)
    requires forall i | 0 <= i < |p| :: p[i] < |p|
    ensures forall x: nat | x < |p| :: x in p
  {
    DistinctSize(p);
    FullSet(Elems(p), |p|);
    forall x: nat | x < |p| ensures x in p {
      assert x in Elems(p);
    }
  }

  /** Linearizability, as the search sees it. */
  lemma {:induction false} LinearizableBySteps<S, V>(m: Model<S, V>, h: History<V>)
    requires SaneTimes(h)
    ensures Linearizable(m, h) <==> exists p :: LegalFrom(m, h, {}, m.init, p) && |p| == |h|
  {
    forall p: seq<nat> ensures Linearization(m, h, p) <==> LegalFrom(m, h, {}, m.init, p) && |p| == |h| {
      LegalFromIsLegalPrefix(m, h, p);
      FullPrefixIsLinearization(m, h, p);
    }
  }

  /** Equal states have the same continuations. */
  lemma {:induction false} EqualStatesSameFuture<S(!new), V(!new)>(
    m: Model<S, V>, h: History<V>, done: set<nat>, s: S, t: S, order: seq<nat>)
    requires EqualRespectsStep(m) && m.equal(s, t)
    ensures LegalFrom(m, h, done, s, order) <==> LegalFrom(m, h, done, t, order)
    decreases |order|
  {
    if order != [] && order[0] < |h| && StepOk(m, h, s, order[0]) {
      EqualStatesSameFuture(m, h, done + {order[0]}, StepState(m, h, s, order[0]), StepState(m, h, t, order[0]), order[1..]);
    }
  }
}
