/** The linked list built from an entry list, and its shape after any stack of lifts. */
module EntryList {
  import opened Linearizability
  import opened Entries
  import opened LinkedEntries

  /** The node that holds entry `i`. */
  ghost predicate NodeFor<V>(n: Node<V>, es: seq<Entry<V>>, i: nat)
    requires i < |es|
  {
    n.value == Some(es[i].value) && n.id == es[i].id && n.place == i + 1
  }

  /** `nodes` are the head entry and one node per entry; calls point at their returns. */
  ghost predicate Mirrors<V>(nodes: seq<Node<V>>, h: History<V>, es: seq<Entry<V>>) {
    && Describes(h, es)
    && |nodes| == |es| + 1
    && Placed(nodes)
    && nodes[0].matching == null
    && (forall i | 1 <= i < |nodes| :: NodeFor(nodes[i], es, i - 1))
    && (forall i {:trigger nodes[i].matching} | 1 <= i < |nodes| && es[i - 1].kind == ReturnEntry :: nodes[i].matching == null)
    && (forall i {:trigger nodes[i].matching} | 1 <= i < |nodes| && es[i - 1].kind == CallEntry ::
          nodes[i].matching == nodes[h[es[i - 1].id].ret + 1])
  }

  /** Every node between its neighbours, nil at both ends. */
  ghost function FullLinks(n: nat): (l: Links)
    ensures |l.next| == |l.prev| == n
  {
    Links(seq(n, i requires 0 <= i < n => i + 1), seq(n, i requires 0 <= i < n => if i == 0 then n else i - 1))
  }

  lemma {:induction false} FullLinked<V>(es: seq<Entry<V>>)
    ensures Linked(FullLinks(|es| + 1), Live(es, {}))
  {
    var l, live := FullLinks(|es| + 1), Live(es, {});
    forall i | i in live
      ensures l.next[i] == Succ(live, i, |es| + 1)
      ensures i > 0 ==> l.prev[i] == Pred(live, i)
    {
      if i < |es| { assert Unfinished(es, {}, i + 1); }
      if i > 0 { assert Unfinished(es, {}, i - 1); }
    }
  }

  /** The links once `x` has been lifted out of the list that is left after `done`. */
  ghost function LiftedOp<V>(l: Links, h: History<V>, es: seq<Entry<V>>, done: set<nat>, x: nat): (r: Links)
    requires Describes(h, es) && Linked(l, Live(es, done)) && |l.next| == |es| + 1
    requires x < |h| && x !in done
    ensures Linked(r, Live(es, done + {x})) && |r.next| == |es| + 1
  {
    LiveOps(h, es, done, x);
    LiveWithout(h, es, done, x);
    Lifted(l, Live(es, done), h[x].call + 1, h[x].ret + 1)
  }

  /** All links after the operations on the stack have been lifted, bottom first. */
  ghost function LinksAfter<V>(h: History<V>, es: seq<Entry<V>>, stack: seq<nat>): (l: Links)
    requires Describes(h, es) && InRange(h, stack) && Distinct(stack)
    ensures Linked(l, Live(es, Elems(stack))) && |l.next| == |es| + 1
  {
    if stack == [] then
      assert Elems(stack) == {};
      FullLinked(es);
      FullLinks(|es| + 1)
    else
      var k := |stack| - 1;
      var x, rest := stack[k], stack[..k];
      assert x !in Elems(rest);
      assert stack == rest + [x];
      ElemsAppend(rest, x);
      LiftedOp(LinksAfter(h, es, rest), h, es, Elems(rest), x)
  }

  lemma {:induction false} LinksAfterPush<V>(h: History<V>, es: seq<Entry<V>>, stack: seq<nat>, x: nat)
    requires Describes(h, es) && InRange(h, stack) && Distinct(stack)
    requires x < |h| && x !in Elems(stack)
    ensures Distinct(stack + [x]) && InRange(h, stack + [x])
    ensures LinksAfter(h, es, stack + [x]) == LiftedOp(LinksAfter(h, es, stack), h, es, Elems(stack), x)
  {
    var stack' := stack + [x];
    assert Distinct(stack') by {
      assert forall i | 0 <= i < |stack| :: stack[i] in Elems(stack);
    }
    assert stack'[..|stack|] == stack;
    assert stack'[|stack|] == x;
  }

  /** checker.go:65-76. */
  method InsertBefore<V>(n: Node<V>, mark: Node?<V>) returns (r: Node<V>)
    requires mark != null ==> mark != n && mark.prev != n && mark.prev != mark
    modifies n, if mark == null then {} else {mark} + if mark.prev == null then {} else {mark.prev}
    ensures r == n
    ensures mark == null ==> n.next == old(n.next) && n.prev == old(n.prev)
    ensures mark != null ==>
      && mark.prev == n && n.next == mark && mark.next == old(mark.next)
      && n.prev == (if old(mark.prev) == null then old(n.prev) else old(mark.prev))
    ensures mark != null && old(mark.prev) != null ==>
      old(mark.prev).next == n && old(mark.prev).prev == old(mark.prev.prev)
  {
    if mark != null {
      var beforeMark := mark.prev;
      mark.prev := n;
      n.next := mark;
      if beforeMark != null {
        n.prev := beforeMark;
        beforeMark.next := n;
      }
    }
    return n;
  }

  /** A finished tail of the list: nodes for entries `from`, `from + 1`, ... */
  ghost predicate Tail<V>(tail: seq<Node<V>>, es: seq<Entry<V>>, from: nat)
    reads tail
  {
    && from + |tail| == |es|
    && (forall k | 0 <= k < |tail| :: NodeFor(tail[k], es, from + k))
    && (forall k {:trigger tail[k].next} | 0 <= k < |tail| :: tail[k].next == At(tail, k + 1))
    && (forall k {:trigger tail[k].prev} | 0 <= k < |tail| :: tail[k].prev == if k == 0 then null else tail[k - 1])
  }

  ghost predicate TailMatches<V>(tail: seq<Node<V>>, h: History<V>, es: seq<Entry<V>>, from: nat)
    requires Describes(h, es) && from + |tail| == |es|
  {
    && (forall k {:trigger tail[k].matching} | 0 <= k < |tail| && es[from + k].kind == ReturnEntry :: tail[k].matching == null)
    && (forall k {:trigger tail[k].matching} | 0 <= k < |tail| && es[from + k].kind == CallEntry ::
          tail[k].matching == tail[h[es[from + k].id].ret - from])
  }

  /** The returns seen so far. */
  ghost predicate Seen<V>(m: map<nat, Node<V>>, tail: seq<Node<V>>, h: History<V>, es: seq<Entry<V>>, from: nat)
    requires Describes(h, es) && from + |tail| == |es|
  {
    forall x {:trigger m[x]} {:trigger h[x]} | 0 <= x < |h| && from <= h[x].ret :: x in m && m[x] == tail[h[x].ret - from]
  }

  lemma {:induction false} TailCons<V>(entry: Node<V>, tail: seq<Node<V>>, es: seq<Entry<V>>, from: nat)
    requires from + 1 + |tail| == |es| && NodeFor(entry, es, from)
    requires forall k | 0 <= k < |tail| :: NodeFor(tail[k], es, from + 1 + k)
    requires forall k {:trigger tail[k].next} | 0 <= k < |tail| :: tail[k].next == At(tail, k + 1)
    requires forall k {:trigger tail[k].prev} | 0 <= k < |tail| :: tail[k].prev == if k == 0 then entry else tail[k - 1]
    requires entry.next == At(tail, 0) && entry.prev == null
    ensures Tail([entry] + tail, es, from)
  {
    var tail' := [entry] + tail;
    assert forall k | 1 <= k < |tail'| :: tail'[k] == tail[k - 1];
  }

  lemma {:induction false} SeenCons<V>(entry: Node<V>, m: map<nat, Node<V>>, m': map<nat, Node<V>>, tail: seq<Node<V>>, h: History<V>, es: seq<Entry<V>>, from: nat)
    requires Describes(h, es) && from + 1 + |tail| == |es| && Seen(m, tail, h, es, from + 1)
    requires m' == if es[from].kind == ReturnEntry then m[es[from].id := entry] else m
    ensures Seen(m', [entry] + tail, h, es, from)
  {
    var tail' := [entry] + tail;
    assert forall k | 1 <= k < |tail'| :: tail'[k] == tail[k - 1];
    forall x | 0 <= x < |h| && from <= h[x].ret ensures x in m' && m'[x] == tail'[h[x].ret - from] {
      var r := es[h[x].ret];
    }
  }

  lemma {:induction false} CallThenReturn<V>(h: History<V>, es: seq<Entry<V>>, p: nat)
    requires Describes(h, es) && p < |es|
    ensures es[p].id < |h| && (es[p].kind == CallEntry ==> p < h[es[p].id].ret < |es|)
  {
  }

  /** The match of one node of the longer list. */
  lemma {:induction false} MatchAt<V>(entry: Node<V>, m: map<nat, Node<V>>, tail: seq<Node<V>>, h: History<V>, es: seq<Entry<V>>, from: nat, k: nat)
    requires Describes(h, es) && from + 1 + |tail| == |es| && k <= |tail|
    requires TailMatches(tail, h, es, from + 1) && Seen(m, tail, h, es, from + 1)
    requires entry.matching == if es[from].kind == CallEntry && es[from].id in m then m[es[from].id] else null
    ensures var tail' := [entry] + tail;
      && (es[from + k].kind == ReturnEntry ==> tail'[k].matching == null)
      && (es[from + k].kind == CallEntry ==>
            && es[from + k].id < |h| && from <= h[es[from + k].id].ret < |es|
            && tail'[k].matching == tail'[h[es[from + k].id].ret - from])
  {
    hide Describes;
    var tail' := [entry] + tail;
    CallThenReturn(h, es, from + k);
    if k > 0 {
      assert tail'[k] == tail[k - 1] && es[from + 1 + (k - 1)] == es[from + k];
      assert tail[k - 1].matching == tail[k - 1].matching;
    } else if es[from].kind == CallEntry {
      var x := es[from].id;
      assert x in m && m[x] == tail[h[x].ret - (from + 1)];
    }
  }

  lemma {:induction false} MatchesCons<V>(entry: Node<V>, m: map<nat, Node<V>>, m': map<nat, Node<V>>, tail: seq<Node<V>>, h: History<V>, es: seq<Entry<V>>, from: nat)
    requires Describes(h, es) && from + 1 + |tail| == |es|
    requires TailMatches(tail, h, es, from + 1) && Seen(m, tail, h, es, from + 1)
    requires var e := es[from];
      if e.kind == ReturnEntry then entry.matching == null && m' == m[e.id := entry]
      else entry.matching == (if e.id in m then m[e.id] else null) && m' == m
    ensures TailMatches([entry] + tail, h, es, from) && Seen(m', [entry] + tail, h, es, from)
  {
    hide Describes, Seen;
    var tail' := [entry] + tail;
    forall k | 0 <= k < |tail'|
      ensures es[from + k].kind == ReturnEntry ==> tail'[k].matching == null
      ensures es[from + k].kind == CallEntry ==>
        && es[from + k].id < |h| && from <= h[es[from + k].id].ret < |es|
        && tail'[k].matching == tail'[h[es[from + k].id].ret - from]
    {
      MatchAt(entry, m, tail, h, es, from, k);
    }
    SeenCons(entry, m, m', tail, h, es, from);
  }

  lemma {:induction false} MatchesNil<V>(h: History<V>, es: seq<Entry<V>>)
    requires Describes(h, es)
    ensures TailMatches<V>([], h, es, |es|) && Seen<V>(map[], [], h, es, |es|)
  {
  }

  /** A new node for entry `i`, in front of the list built so far. */
  method Prepend<V>(entries: seq<Entry<V>>, i: nat, matching: Node?<V>, root: Node?<V>, ghost nodes: seq<Node<V>>)
    returns (entry: Node<V>)
    requires i < |entries| && Tail(nodes, entries, i + 1) && root == At(nodes, 0)
    modifies nodes
    ensures fresh(entry) && entry.matching == matching
    ensures Tail([entry] + nodes, entries, i)
  {
    entry := new Node(Some(entries[i].value), matching, entries[i].id, i + 1);
    assert root != null ==> root == nodes[0] && root.prev == null;
    var _ := InsertBefore(entry, root);
    TailCons(entry, nodes, entries, i);
  }

  /** checker.go:116-133, built from the last entry to the first. */
  method MakeLinkedEntries<V>(entries: seq<Entry<V>>, ghost h: History<V>) returns (root: Node?<V>, ghost nodes: seq<Node<V>>)
    requires Describes(h, entries)
    ensures Tail(nodes, entries, 0) && TailMatches(nodes, h, entries, 0) && root == At(nodes, 0)
    ensures forall k | 0 <= k < |nodes| :: fresh(nodes[k])
  {
    hide Describes, TailMatches, Seen, NodeFor;
    root, nodes := null, [];
    var matches: map<nat, Node<V>> := map[];
    var i := |entries|;
    MatchesNil(h, entries);
    while i > 0
      invariant 0 <= i <= |entries|
      invariant Tail(nodes, entries, i) && TailMatches(nodes, h, entries, i) && root == At(nodes, 0)
      invariant Seen(matches, nodes, h, entries, i)
      invariant forall k | 0 <= k < |nodes| :: fresh(nodes[k])
    {
      i := i - 1;
      var elem := entries[i];
      ghost var m, tail := matches, nodes;
      if elem.kind == ReturnEntry {
        root := Prepend(entries, i, null, root, nodes);
        matches := matches[elem.id := root];
      } else {
        root := Prepend(entries, i, if elem.id in matches then matches[elem.id] else null, root, nodes);
      }
      MatchesCons(root, m, matches, nodes, h, entries, i);
      nodes := [root] + tail;
      assert forall k | 0 < k < |nodes| :: nodes[k] == tail[k - 1];
    }
  }

  /** checker.go:78-85. */
  method Length<V>(first: Node?<V>, ghost nodes: seq<Node<V>>, ghost es: seq<Entry<V>>) returns (l: nat)
    requires Tail(nodes, es, 0) && first == At(nodes, 0)
    ensures l == |es|
  {
    l := 0;
    var n := first;
    while n != null
      invariant l <= |nodes| && n == At(nodes, l)
      decreases |nodes| - l
    {
      n := n.next;
      l := l + 1;
    }
  }

  /** With the head entry in front, the heap holds the full list. */
  lemma {:induction false} HeadAttached<V>(head: Node<V>, tail: seq<Node<V>>, h: History<V>, es: seq<Entry<V>>)
    requires Describes(h, es) && |tail| == |es| && TailMatches(tail, h, es, 0)
    requires forall k | 0 <= k < |tail| :: NodeFor(tail[k], es, k)
    requires forall k {:trigger tail[k].next} | 0 <= k < |tail| :: tail[k].next == At(tail, k + 1)
    requires forall k {:trigger tail[k].prev} | 0 <= k < |tail| :: tail[k].prev == if k == 0 then head else tail[k - 1]
    requires head.next == At(tail, 0) && head.prev == null && head.matching == null && head.place == 0
    ensures |es| == 2 * |h|
    ensures Mirrors([head] + tail, h, es)
    ensures Holds([head] + tail, FullLinks(|es| + 1))
  {
    var nodes := [head] + tail;
    assert forall i | 1 <= i < |nodes| :: nodes[i] == tail[i - 1];
  }

  /** checker.go:175-176 and 184: the list of a history behind its head entry. */
  method BuildList<V>(history: seq<Entry<V>>, ghost h: History<V>)
    returns (headEntry: Node<V>, entry: Node?<V>, n: nat, ghost nodes: seq<Node<V>>)
    requires Describes(h, history)
    ensures n == |h| && Mirrors(nodes, h, history) && Holds(nodes, FullLinks(|history| + 1))
    ensures |nodes| == |history| + 1 && nodes[0] == headEntry && entry == At(nodes, 1)
    ensures forall k | 0 <= k < |nodes| :: fresh(nodes[k])
  {
    hide Describes, Mirrors, Holds, NodeFor, TailMatches, FullLinks;
    ghost var tail;
    entry, tail := MakeLinkedEntries(history, h);
    var len := Length(entry, tail, history);
    n := len / 2;
    headEntry := new Node<V>(None, null, -1, 0);
    var _ := InsertBefore(headEntry, entry);
    HeadAttached(headEntry, tail, h, history);
    nodes := [headEntry] + tail;
    assert forall k | 1 <= k < |nodes| :: nodes[k] == tail[k - 1];
  }

  /** Lifting operation `x` while the operations on the stack are out of the list. */
  method LiftOp<V>(entry: Node<V>, ghost nodes: seq<Node<V>>, ghost h: History<V>, ghost es: seq<Entry<V>>, ghost stack: seq<nat>, ghost x: nat)
    requires Mirrors(nodes, h, es) && InRange(h, stack) && Distinct(stack) && x < |h| && x !in Elems(stack)
    requires entry == At(nodes, h[x].call + 1) && Holds(nodes, LinksAfter(h, es, stack))
    modifies nodes
    ensures InRange(h, stack + [x]) && Distinct(stack + [x])
    ensures Holds(nodes, LinksAfter(h, es, stack + [x]))
  {
    hide Mirrors, Describes, Live, LinksAfter, Placed, Elems, InRange, Distinct, Linked, Lifted, Holds;
    PairFacts(nodes, h, es, Elems(stack), x);
    LinksAfterPush(h, es, stack, x);
    Lift(entry, nodes, LinksAfter(h, es, stack), Live(es, Elems(stack)), h[x].call + 1, h[x].ret + 1);
  }

  /** Putting back the operation that was lifted last. */
  method UnliftOp<V>(entry: Node<V>, ghost nodes: seq<Node<V>>, ghost h: History<V>, ghost es: seq<Entry<V>>, ghost stack: seq<nat>, ghost x: nat)
    requires Mirrors(nodes, h, es) && InRange(h, stack) && Distinct(stack) && x < |h| && x !in Elems(stack)
    requires InRange(h, stack + [x]) && Distinct(stack + [x])
    requires entry == At(nodes, h[x].call + 1) && Holds(nodes, LinksAfter(h, es, stack + [x]))
    modifies nodes
    ensures Holds(nodes, LinksAfter(h, es, stack))
  {
    hide Mirrors, Describes, Live, LinksAfter, Placed, Elems, InRange, Distinct, Linked, Lifted, Holds;
    PairFacts(nodes, h, es, Elems(stack), x);
    LinksAfterPush(h, es, stack, x);
    Unlift(entry, nodes, LinksAfter(h, es, stack), Live(es, Elems(stack)), h[x].call + 1, h[x].ret + 1);
  }

  lemma {:induction false} PairFacts<V>(nodes: seq<Node<V>>, h: History<V>, es: seq<Entry<V>>, done: set<nat>, x: nat)
    requires Mirrors(nodes, h, es) && x < |h| && x !in done
    ensures Describes(h, es) && 0 <= h[x].call < h[x].ret < |es| && |nodes| == |es| + 1 && Placed(nodes)
    ensures nodes[h[x].call + 1].matching == nodes[h[x].ret + 1] && nodes[h[x].call + 1].id == x
    ensures h[x].call + 1 in Live(es, done) && h[x].ret + 1 in Live(es, done)
  {
    var c, r := es[h[x].call], es[h[x].ret];
    assert NodeFor(nodes[h[x].call + 1], es, h[x].call);
    assert nodes[h[x].call + 1].matching == nodes[h[x].ret + 1];
    LiveOps(h, es, done, x);
  }
}
