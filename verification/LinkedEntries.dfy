/** The doubly linked entry list of porcupine/checker.go and its "dancing links" removal.

    `nodes` are all nodes ever in the list, in list order, the head entry first, and `live` are
    the indices of those currently linked in.  `Links` is the content of every `next` and `prev`
    field, as indices into `nodes`, with `|nodes|` for nil. */
module LinkedEntries {
  import opened Linearizability

  class Node<V> {
    const value: Option<V>
    const matching: Node?<V> // the return of a call; null in a return and in the head
    const id: int
    ghost const place: nat // the node's index in the list as first built, the head entry at 0
    var next: Node?<V>
    var prev: Node?<V>

    constructor (value: Option<V>, matching: Node?<V>, id: int, ghost place: nat)
      ensures this.value == value && this.matching == matching && this.id == id && this.place == place
      ensures next == null && prev == null
    {
      this.value, this.matching, this.id, this.place := value, matching, id, place;
      next, prev := null, null;
    }
  }

  /** The first live index after `i`, or `n`. */
  ghost function Succ(live: set<nat>, i: nat, n: nat): (j: nat)
    requires i < n
    ensures i < j <= n
    ensures j < n ==> j in live
    ensures forall k: nat | i < k < j :: k !in live
    decreases n - i
  {
    if i + 1 == n || i + 1 in live then i + 1 else Succ(live, i + 1, n)
  }

  /** The last live index before `i`. */
  ghost function Pred(live: set<nat>, i: nat): (j: nat)
    requires 0 in live && 0 < i
    ensures j < i && j in live
    ensures forall k: nat | j < k < i :: k !in live
  {
    if i - 1 in live then i - 1 else Pred(live, i - 1)
  }

  datatype Links = Links(next: seq<nat>, prev: seq<nat>)

  ghost predicate Linked(l: Links, live: set<nat>) {
    && |l.next| == |l.prev|
    && 0 in live
    && (forall i | i in live :: i < |l.next|)
    && (forall i {:trigger l.next[i]} | i in live :: l.next[i] == Succ(live, i, |l.next|))
    && (forall i {:trigger l.prev[i]} | i in live && i > 0 :: l.prev[i] == Pred(live, i))
  }

  lemma {:induction false} SuccIs(live: set<nat>, i: nat, n: nat, j: nat)
    requires i < j <= n && (j < n ==> j in live)
    requires forall k: nat | i < k < j :: k !in live
    ensures Succ(live, i, n) == j
  {
  }

  lemma {:induction false} PredIs(live: set<nat>, i: nat, j: nat)
    requires 0 in live && j < i && j in live
    requires forall k: nat | j < k < i :: k !in live
    ensures Pred(live, i) == j
  {
  }

  lemma {:induction false} NeighboursWithout(live: set<nat>, a: nat, i: nat, n: nat)
    requires 0 in live && a in live && 0 < a < n && i < n && i != a
    ensures Succ(live - {a}, i, n) == if Succ(live, i, n) == a then Succ(live, a, n) else Succ(live, i, n)
    ensures i > 0 ==> Pred(live - {a}, i) == if Pred(live, i) == a then Pred(live, a) else Pred(live, i)
  {
    SuccIs(live - {a}, i, n, if Succ(live, i, n) == a then Succ(live, a, n) else Succ(live, i, n));
    if i > 0 {
      PredIs(live - {a}, i, if Pred(live, i) == a then Pred(live, a) else Pred(live, i));
    }
  }

  lemma {:induction false} NeighboursMeet(live: set<nat>, a: nat, i: nat, n: nat)
    requires 0 in live && a in live && 0 < a < n && i < n && i in live
    ensures Succ(live, i, n) == a <==> i == Pred(live, a)
    ensures i > 0 ==> (Pred(live, i) == a <==> i == Succ(live, a, n))
  {
  }

  /** The neighbours of `a` point past it; `a` itself remembers them. */
  ghost function Removed(l: Links, a: nat): Links
    requires |l.next| == |l.prev| && a < |l.next| && l.prev[a] < |l.next|
  {
    Links(l.next[l.prev[a] := l.next[a]],
          if l.next[a] < |l.prev| then l.prev[l.next[a] := l.prev[a]] else l.prev)
  }

  /** The neighbours that `a` remembers point at it again. */
  ghost function Restored(l: Links, a: nat): Links
    requires |l.next| == |l.prev| && a < |l.next| && l.prev[a] < |l.next|
  {
    Links(l.next[l.prev[a] := a],
          if l.next[a] < |l.prev| then l.prev[l.next[a] := a] else l.prev)
  }

  lemma {:induction false} RemovedAt(l: Links, live: set<nat>, a: nat, i: nat)
    requires Linked(l, live) && a in live && a > 0 && i in live - {a}
    ensures Removed(l, a).next[i] == Succ(live - {a}, i, |l.next|)
    ensures i > 0 ==> Removed(l, a).prev[i] == Pred(live - {a}, i)
  {
    NeighboursWithout(live, a, i, |l.next|);
    NeighboursMeet(live, a, i, |l.next|);
  }

  lemma {:induction false} RemovedLinked(l: Links, live: set<nat>, a: nat)
    requires Linked(l, live) && a in live && a > 0
    ensures Linked(Removed(l, a), live - {a})
  {
    forall i | i in live - {a}
      ensures Removed(l, a).next[i] == Succ(live - {a}, i, |l.next|)
      ensures i > 0 ==> Removed(l, a).prev[i] == Pred(live - {a}, i)
    {
      RemovedAt(l, live, a, i);
    }
  }

  lemma {:induction false} RestoredRemoved(l: Links, live: set<nat>, a: nat)
    requires Linked(l, live) && a in live && a > 0
    ensures Removed(l, a).prev[a] == l.prev[a] < |l.next| && Removed(l, a).next[a] == l.next[a]
    ensures Restored(Removed(l, a), a) == l
  {
    NeighboursMeet(live, a, l.prev[a], |l.next|);
    if l.next[a] < |l.next| { NeighboursMeet(live, a, l.next[a], |l.next|); }
  }

  /** A call `a` and its return `b` taken out, in the order of checker.go:154-162. */
  ghost function Lifted(l: Links, live: set<nat>, a: nat, b: nat): (r: Links)
    requires Linked(l, live) && a in live && b in live && 0 < a < b
    ensures Linked(r, live - {a} - {b}) && |r.next| == |l.next|
  {
    RemovedLinked(l, live, a);
    RemovedLinked(Removed(l, a), live - {a}, b);
    Removed(Removed(l, a), b)
  }

  lemma {:induction false} LiftPlan(l: Links, live: set<nat>, a: nat, b: nat)
    requires Linked(l, live) && a in live && b in live && 0 < a < b
    ensures var n, l', l'' := |l.next|, Removed(l, a), Lifted(l, live, a, b);
      && |l'.next| == |l'.prev| == |l''.next| == |l''.prev| == n
      && l.prev[a] < n && l'.next == l.next[l.prev[a] := l.next[a]] && l'.next[a] == l.next[a]
      && l.next[a] < n && l'.prev == l.prev[l.next[a] := l.prev[a]]
      && l'.prev[b] < n && l''.next == l'.next[l'.prev[b] := l'.next[b]] && l''.next[b] == l'.next[b]
      && l''.prev == (if l'.next[b] < n then l'.prev[l'.next[b] := l'.prev[b]] else l'.prev)
  {
    RemovedLinked(l, live, a);
    RestoredRemoved(l, live, a);
    RestoredRemoved(Removed(l, a), live - {a}, b);
  }

  lemma {:induction false} UnliftPlan(l: Links, live: set<nat>, a: nat, b: nat)
    requires Linked(l, live) && a in live && b in live && 0 < a < b
    ensures var n, l', l'' := |l.next|, Removed(l, a), Lifted(l, live, a, b);
      && |l'.next| == |l'.prev| == |l''.next| == |l''.prev| == n
      && l''.prev[b] < n && l'.next == l''.next[l''.prev[b] := b]
      && l'.prev == (if l''.next[b] < n then l''.prev[l''.next[b] := b] else l''.prev)
      && l'.prev[a] < n && l.next == l'.next[l'.prev[a] := a]
      && l'.next[a] < n && l.prev == l'.prev[l'.next[a] := a]
  {
    RemovedLinked(l, live, a);
    RestoredRemoved(l, live, a);
    RestoredRemoved(Removed(l, a), live - {a}, b);
  }

  // ----- the heap

  ghost function At<V>(nodes: seq<Node<V>>, i: nat): Node?<V> {
    if i < |nodes| then nodes[i] else null
  }

  ghost predicate Placed<V>(nodes: seq<Node<V>>) {
    forall i | 0 <= i < |nodes| :: nodes[i].place == i
  }

  /** The fields of the nodes hold these links. */
  ghost predicate Holds<V>(nodes: seq<Node<V>>, l: Links)
    reads nodes
  {
    && |l.next| == |l.prev| == |nodes|
    && (forall i {:trigger nodes[i].next} | 0 <= i < |nodes| :: nodes[i].next == At(nodes, l.next[i]))
    && (forall i {:trigger nodes[i].prev} | 0 <= i < |nodes| :: nodes[i].prev == At(nodes, l.prev[i]))
  }

  /** The assignment `n.next = target`. */
  method SetNext<V>(n: Node<V>, target: Node?<V>, ghost nodes: seq<Node<V>>, ghost l: Links, ghost i: nat, ghost j: nat)
    requires Placed(nodes) && Holds(nodes, l)
    requires i < |nodes| && n == nodes[i] && target == At(nodes, j)
    modifies n`next
    ensures Holds(nodes, l.(next := l.next[i := j]))
  {
    n.next := target;
  }

  /** The assignment `n.prev = target`. */
  method SetPrev<V>(n: Node<V>, target: Node?<V>, ghost nodes: seq<Node<V>>, ghost l: Links, ghost i: nat, ghost j: nat)
    requires Placed(nodes) && Holds(nodes, l)
    requires i < |nodes| && n == nodes[i] && target == At(nodes, j)
    modifies n`prev
    ensures Holds(nodes, l.(prev := l.prev[i := j]))
  {
    n.prev := target;
  }

  /** checker.go:154-162.  Takes a call and its return out of the list. */
  method Lift<V>(entry: Node<V>, ghost nodes: seq<Node<V>>, ghost l: Links, ghost live: set<nat>, ghost a: nat, ghost b: nat)
    requires Placed(nodes) && Holds(nodes, l) && Linked(l, live)
    requires a in live && b in live && 0 < a < b
    requires nodes[a] == entry && entry.matching == nodes[b]
    modifies nodes
    ensures Holds(nodes, Lifted(l, live, a, b))
  {
    ghost var l', l'' := Removed(l, a), Lifted(l, live, a, b);
    LiftPlan(l, live, a, b);
    SetNext(entry.prev, entry.next, nodes, l, l.prev[a], l.next[a]);
    SetPrev(entry.next, entry.prev, nodes, l.(next := l'.next), l.next[a], l.prev[a]);
    var matching := entry.matching;
    SetNext(matching.prev, matching.next, nodes, l', l'.prev[b], l'.next[b]);
    if matching.next != null {
      SetPrev(matching.next, matching.prev, nodes, l'.(next := l''.next), l'.next[b], l'.prev[b]);
    }
  }

  /** checker.go:164-172.  Puts the pair back: every link is what it was before `Lift`,
      whatever was lifted and put back in between. */
  method Unlift<V>(entry: Node<V>, ghost nodes: seq<Node<V>>, ghost l: Links, ghost live: set<nat>, ghost a: nat, ghost b: nat)
    requires Placed(nodes) && Linked(l, live) && |l.next| == |nodes|
    requires a in live && b in live && 0 < a < b
    requires nodes[a] == entry && entry.matching == nodes[b]
    requires Holds(nodes, Lifted(l, live, a, b))
    modifies nodes
    ensures Holds(nodes, l)
  {
    ghost var l', l'' := Removed(l, a), Lifted(l, live, a, b);
    UnliftPlan(l, live, a, b);
    var matching := entry.matching;
    SetNext(matching.prev, matching, nodes, l'', l''.prev[b], b);
    if matching.next != null {
      SetPrev(matching.next, matching, nodes, l''.(next := l'.next), l''.next[b], b);
    }
    SetNext(entry.prev, entry, nodes, l', l'.prev[a], a);
    SetPrev(entry.next, entry, nodes, l'.(next := l.next), l'.next[a], a);
  }
}
