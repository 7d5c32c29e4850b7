/** porcupine/checker.go:314-334 and porcupine/visualization.go:42-79: the partial
    linearizations of one partition, replayed for display. */
module Visualize {
  import opened Linearizability
  import opened Entries
  import opened Sorting

  // ----- replaying

  /** The values recorded for the operations of `h`. */
  ghost predicate Values<V>(h: History<V>, callValue: map<nat, V>, returnValue: map<nat, V>) {
    forall x: nat | x < |h| ::
      && x in callValue && callValue[x] == h[x].input
      && x in returnValue && returnValue[x] == h[x].output
  }

  /** visualization.go:40-53. */
  method OpValues<V(!new)>(es: seq<Entry<V>>) returns (callValue: map<nat, V>, returnValue: map<nat, V>)
    requires WellFormed(es)
    ensures Values(HistoryOf(es), callValue, returnValue)
  {
    ghost var h := HistoryOf(es);
    callValue, returnValue := map[], map[];
    for i := 0 to |es|
      invariant forall x: nat | x < |h| && h[x].call < i :: x in callValue && callValue[x] == h[x].input
      invariant forall x: nat | x < |h| && h[x].ret < i :: x in returnValue && returnValue[x] == h[x].output
    {
      match es[i].kind {
        case CallEntry => callValue := callValue[es[i].id := es[i].value];
        case ReturnEntry => returnValue := returnValue[es[i].id := es[i].value];
      }
      assert forall x: nat | x < |h| && h[x].call == i :: es[h[x].call].id == x;
      assert forall x: nat | x < |h| && h[x].ret == i :: es[h[x].ret].id == x;
    }
    assert forall x: nat | x < |h| :: h[x].call < |es| && h[x].ret < |es|;
  }

  ghost predicate ShownAt<S, V>(m: Model<S, V>, h: History<V>, partial: seq<nat>, steps: seq<(nat, S)>, j: nat)
    requires j < |partial| == |steps|
  {
    InRange(h, partial[..j + 1]) && steps[j] == (partial[j], StateAfter(m, h, m.init, partial[..j + 1]))
  }

  /** The states after each operation of a partial linearization. */
  ghost predicate Shows<S, V>(m: Model<S, V>, h: History<V>, partial: seq<nat>, steps: seq<(nat, S)>) {
    |steps| == |partial| && forall j | 0 <= j < |partial| :: ShownAt(m, h, partial, steps, j)
  }

  /** What is known of the longest partial with each operation: its index and its length. */
  datatype Largest = Largest(index: map<nat, nat>, size: map<nat, nat>)

  function SizeOf(l: Largest, x: nat): nat {
    if x in l.size then l.size[x] else 0
  }

  function Update(l: Largest, i: nat, n: nat, x: nat): Largest {
    if SizeOf(l, x) < n then Largest(l.index[x := i], l.size[x := n]) else l
  }

  /** All operations of partial `i`, which has length `n`, one after the other. */
  function UpdateAll(l: Largest, i: nat, n: nat, xs: seq<nat>): Largest {
    if xs == [] then l else Update(UpdateAll(l, i, n, xs[..|xs| - 1]), i, n, xs[|xs| - 1])
  }

  lemma {:induction false} ShowsOne<S, V>(m: Model<S, V>, h: History<V>, partial: seq<nat>, j: nat, steps: seq<(nat, S)>, s: S)
    requires j < |partial| && InRange(h, partial) && Shows(m, h, partial[..j], steps)
    requires InRange(h, partial[..j + 1]) && s == StateAfter(m, h, m.init, partial[..j + 1])
    ensures Shows(m, h, partial[..j + 1], steps + [(partial[j], s)])
  {
    var p, p', steps' := partial[..j], partial[..j + 1], steps + [(partial[j], s)];
    forall k | 0 <= k < |p'| ensures ShownAt(m, h, p', steps', k) {
      if k < j {
        assert ShownAt(m, h, p, steps, k);
        assert p'[..k + 1] == p[..k + 1];
      } else {
        assert p'[..k + 1] == p';
      }
    }
  }

  /** visualization.go:63-78, for one partial linearization.  The branch that panics is dead. */
  method ReplayOne<S, V>(
    model: Model<S, V>, ghost h: History<V>, callValue: map<nat, V>, returnValue: map<nat, V>, partial: seq<nat>, i: nat, l: Largest)
    returns (steps: seq<(nat, S)>, l': Largest)
    requires Values(h, callValue, returnValue) && LegalPrefix(model, h, partial)
    ensures Shows(model, h, partial, steps) && l' == UpdateAll(l, i, |partial|, partial)
  {
    hide Shows, Update, StateAfter, Replays, Precedes;
    steps, l' := [], l;
    var state := model.init;
    ShowsNone(model, h);
    for j := 0 to |partial|
      invariant InRange(h, partial[..j]) && state == StateAfter(model, h, model.init, partial[..j])
      invariant Shows(model, h, partial[..j], steps)
      invariant l' == UpdateAll(l, i, |partial|, partial[..j])
    {
      var histId := partial[j];
      ReplaysAt(model, h, model.init, partial, j);
      var (ok, next) := model.step(state, callValue[histId], returnValue[histId]);
      if !ok {
        assert false;
      }
      state := next;
      ShowsOne(model, h, partial, j, steps, state);
      steps := steps + [(histId, state)];
      assert partial[..j + 1][..j] == partial[..j];
      l' := Update(l', i, |partial|, histId);
    }
    assert partial[..|partial|] == partial;
  }

  lemma {:induction false} ShowsNone<S, V>(m: Model<S, V>, h: History<V>)
    ensures InRange(h, []) && Shows(m, h, [], []) && StateAfter(m, h, m.init, []) == m.init
  {
  }

  // ----- the longest partial with each operation

  /** A partial of this length or longer is known to have the operation. */
  predicate AtLeast(l: Largest, x: nat, n: nat) {
    x in l.size && n <= l.size[x]
  }

  /** Partial `k` is the first with the operation. */
  ghost predicate FirstIn(partials: seq<seq<nat>>, x: nat, k: nat) {
    k < |partials| && x in partials[k] && forall j | 0 <= j < k :: x !in partials[j]
  }

  /** What is known of an operation is true of the partial that its index names. */
  ghost predicate Pointed(partials: seq<seq<nat>>, l: Largest) {
    && l.index.Keys == l.size.Keys
    && (forall x | x in l.index :: FirstIn(partials, x, l.index[x]) && l.size[x] == |partials[l.index[x]]|)
  }

  ghost predicate Descending(partials: seq<seq<nat>>) {
    forall i, j | 0 <= i < j < |partials| :: |partials[i]| >= |partials[j]|
  }

  /** `l` is right about partials 0 to i-1 and about the first operations `xs` of partial i. */
  ghost predicate Best(partials: seq<seq<nat>>, i: nat, xs: seq<nat>, l: Largest) {
    && Descending(partials)
    && i <= |partials| && (xs != [] ==> i < |partials|)
    && Pointed(partials, l)
    && (forall x, k | 0 <= k < i && x in partials[k] :: AtLeast(l, x, |partials[k]|))
    && (forall x | x in xs :: AtLeast(l, x, |partials[i]|))
  }

  lemma {:induction false} UpdateReaches(l: Largest, i: nat, n: nat, x: nat, y: nat, m: nat)
    ensures AtLeast(l, y, m) ==> AtLeast(Update(l, i, n, x), y, m)
    ensures n > 0 ==> AtLeast(Update(l, i, n, x), x, n)
  {
  }

  lemma {:induction false} UpdatePointed(partials: seq<seq<nat>>, l: Largest, i: nat, x: nat)
    requires Pointed(partials, l) && Descending(partials) && i < |partials| && x in partials[i]
    requires forall k | 0 <= k < i && x in partials[k] :: AtLeast(l, x, |partials[k]|)
    ensures Pointed(partials, Update(l, i, |partials[i]|, x))
  {
    if SizeOf(l, x) < |partials[i]| {
      assert FirstIn(partials, x, i);
    }
  }

  lemma {:induction false} BestOne(partials: seq<seq<nat>>, i: nat, xs: seq<nat>, l: Largest, x: nat)
    requires Best(partials, i, xs, l) && i < |partials| && x in partials[i]
    ensures Best(partials, i, xs + [x], Update(l, i, |partials[i]|, x))
  {
    hide Pointed, Update, AtLeast, Descending;
    var n, l' := |partials[i]|, Update(l, i, |partials[i]|, x);
    UpdatePointed(partials, l, i, x);
    forall y, k | 0 <= k < i && y in partials[k] ensures AtLeast(l', y, |partials[k]|) {
      UpdateReaches(l, i, n, x, y, |partials[k]|);
    }
    forall y | y in xs + [x] ensures AtLeast(l', y, n) {
      UpdateReaches(l, i, n, x, y, n);
    }
  }

  lemma {:induction false} BestAll(partials: seq<seq<nat>>, i: nat, j: nat, l: Largest)
    requires i < |partials| && j <= |partials[i]| && Best(partials, i, [], l)
    ensures Best(partials, i, partials[i][..j], UpdateAll(l, i, |partials[i]|, partials[i][..j]))
  {
    hide Best, Update;
    if j > 0 {
      BestAll(partials, i, j - 1, l);
      var xs := partials[i][..j - 1];
      BestOne(partials, i, xs, UpdateAll(l, i, |partials[i]|, xs), partials[i][j - 1]);
      assert partials[i][..j] == xs + [partials[i][j - 1]] && partials[i][..j][..j - 1] == xs;
    }
  }

  lemma {:induction false} BestNext(partials: seq<seq<nat>>, i: nat, l: Largest)
    requires i < |partials| && Best(partials, i, [], l)
    ensures Best(partials, i + 1, [], UpdateAll(l, i, |partials[i]|, partials[i]))
  {
    BestAll(partials, i, |partials[i]|, l);
    assert partials[i][..|partials[i]|] == partials[i];
  }

  // ----- one partition

  predicate Longer(a: seq<nat>, b: seq<nat>) {
    |a| > |b|
  }

  lemma {:induction false} LongerIsOrdering()
    ensures Ordering(Longer)
  {
  }

  /** A prefix behind a pointer: the search lets several operations share one. */
  class Prefix {
    const ids: seq<nat>

    constructor (ids: seq<nat>)
      ensures this.ids == ids
    {
      this.ids := ids;
    }
  }

  /** `partials` are the prefixes behind the different pointers `refs`. */
  ghost predicate Behind(refs: seq<Prefix>, partials: seq<seq<nat>>) {
    |refs| == |partials| && Distinct(refs) && forall i | 0 <= i < |refs| :: partials[i] == refs[i].ids
  }

  /** checker.go:319-331: one copy for each pointer that is not nil, in any order. */
  method CollectPartials(longest: seq<Prefix?>) returns (partials: seq<seq<nat>>, refs: seq<Prefix>)
    ensures Behind(refs, partials) && forall p: Prefix? :: p in refs <==> p in longest && p != null
  {
    var found: set<Prefix> := {};
    for i := 0 to |longest|
      invariant forall p: Prefix? :: p in found <==> p in longest[..i] && p != null
    {
      assert longest[..i + 1] == longest[..i] + [longest[i]];
      if longest[i] != null {
        found := found + {longest[i]};
      }
    }
    assert longest[..|longest|] == longest;
    partials, refs := [], [];
    var rest := found;
    while rest != {}
      invariant rest <= found && Behind(refs, partials)
      invariant forall p: Prefix? :: p in refs <==> p in found && p !in rest
    {
      var p :| p in rest;
      partials, refs := partials + [p.ids], refs + [p];
      rest := rest - {p};
    }
  }

  /** visualization.go:55-79: every partial is shown with the states it goes through, and every
      operation that is in one is given the index of a longest that it is in. */
  method ShowPartials<S, V(!new)>(model: Model<S, V>, es: seq<Entry<V>>, found: seq<seq<nat>>)
    returns (partials: seq<seq<nat>>, linearizations: seq<seq<(nat, S)>>, largest: map<nat, nat>)
    requires WellFormed(es)
    requires forall p | p in found :: LegalPrefix(model, HistoryOf(es), p)
    ensures multiset(partials) == multiset(found)
    ensures Descending(partials)
    ensures |linearizations| == |partials|
    ensures forall i | 0 <= i < |partials| :: Shows(model, HistoryOf(es), partials[i], linearizations[i])
    ensures forall x | x in largest :: FirstIn(partials, x, largest[x])
    ensures forall x, k | 0 <= k < |partials| && x in partials[k] ::
      x in largest && largest[x] < |partials| && |partials[k]| <= |partials[largest[x]]|
  {
    hide LegalPrefix, Shows, Values, Replays, UpdateAll, Best, Describes;
    var callValue, returnValue := OpValues(es);
    LongerIsOrdering();
    partials := Sort(Longer, found);
    SameElements(partials, found);
    linearizations := [];
    var l := Largest(map[], map[]);
    BestNone(partials);
    for i := 0 to |partials|
      invariant |linearizations| == i && Best(partials, i, [], l)
      invariant forall k | 0 <= k < i :: Shows(model, HistoryOf(es), partials[k], linearizations[k])
    {
      assert partials[i] in partials;
      BestNext(partials, i, l);
      var steps;
      steps, l := ReplayOne(model, HistoryOf(es), callValue, returnValue, partials[i], i, l);
      linearizations := linearizations + [steps];
    }
    largest := l.index;
    BestOfAll(partials, l);
  }

  lemma {:induction false} BestNone(partials: seq<seq<nat>>)
    requires Descending(partials)
    ensures Best(partials, 0, [], Largest(map[], map[]))
  {
  }

  lemma {:induction false} BestOfAll(partials: seq<seq<nat>>, l: Largest)
    requires Best(partials, |partials|, [], l)
    ensures forall x | x in l.index :: FirstIn(partials, x, l.index[x])
    ensures forall x, k | 0 <= k < |partials| && x in partials[k] :: x in l.index && |partials[k]| <= |partials[l.index[x]]|
  {
  }
}
