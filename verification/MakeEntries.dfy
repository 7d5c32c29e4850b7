/** porcupine/checker.go:43-55: from operations with timestamps to an entry list.

    The sort compares timestamps only and is not stable, so the position of a return relative
    to a call with the same timestamp is arbitrary. */
module MakeEntries {
  import opened Linearizability
  import opened Entries
  import opened Sorting

  predicate Earlier<V>(a: Entry<V>, b: Entry<V>) {
    a.time < b.time
  }

  function CallOf<V>(h: History<V>, x: nat): Entry<V>
    requires x < |h|
  {
    Entry(CallEntry, h[x].input, x, h[x].call)
  }

  function ReturnOf<V>(h: History<V>, x: nat): Entry<V>
    requires x < |h|
  {
    Entry(ReturnEntry, h[x].output, x, h[x].ret)
  }

  /** Both entries of every operation, operation by operation. */
  function Unsorted<V>(h: History<V>, n: nat): (es: seq<Entry<V>>)
    requires n <= |h|
    ensures |es| == 2 * n
    ensures forall x | 0 <= x < n :: es[2 * x] == CallOf(h, x) && es[2 * x + 1] == ReturnOf(h, x)
  {
    if n == 0 then [] else Unsorted(h, n - 1) + [CallOf(h, n - 1), ReturnOf(h, n - 1)]
  }

  lemma {:induction false} EarlierIsOrdering<V(!new)>()
    ensures Ordering<Entry<V>>(Earlier)
  {
  }

  /** checker.go:43-55: some sort of the entries by time. */
  method MakeEntries<V(!new, ==)>(history: History<V>) returns (entries: seq<Entry<V>>)
    ensures IsSort(Earlier, entries, Unsorted(history, |history|))
  {
    var unsorted: seq<Entry<V>> := [];
    for id := 0 to |history|
      invariant unsorted == Unsorted(history, id)
    {
      unsorted := unsorted + [Entry(CallEntry, history[id].input, id, history[id].call)];
      unsorted := unsorted + [Entry(ReturnEntry, history[id].output, id, history[id].ret)];
    }
    EarlierIsOrdering<V>();
    entries := Sort(Earlier, unsorted);
  }

  // ----- what the entry list stands for

  ghost function PlaceOf<V>(es: seq<Entry<V>>, e: Entry<V>): (p: nat)
    requires e in es
    ensures p < |es| && es[p] == e
  {
    var p: nat :| p < |es| && es[p] == e;
    p
  }

  lemma {:induction false} UnsortedAt<V>(h: History<V>, i: nat)
    requires i < 2 * |h|
    ensures Unsorted(h, |h|)[i] == if i % 2 == 0 then CallOf(h, i / 2) else ReturnOf(h, i / 2)
  {
    var x, es := i / 2, Unsorted(h, |h|);
    assert es[2 * x] == CallOf(h, x) && es[2 * x + 1] == ReturnOf(h, x);
    assert i == 2 * x + i % 2;
  }

  lemma {:induction false} UnsortedMembers<V>(h: History<V>, e: Entry<V>)
    requires e in Unsorted(h, |h|)
    ensures e.id < |h| && (e == CallOf(h, e.id) || e == ReturnOf(h, e.id))
  {
    var i :| 0 <= i < 2 * |h| && Unsorted(h, |h|)[i] == e;
    UnsortedAt(h, i);
  }

  lemma {:induction false} UnsortedDistinct<V>(h: History<V>)
    ensures Distinct(Unsorted(h, |h|))
  {
    var es := Unsorted(h, |h|);
    forall i, j | 0 <= i < j < |es| ensures es[i] != es[j] {
      UnsortedAt(h, i);
      UnsortedAt(h, j);
    }
  }

  /** The operations with their positions in the sorted list as times. */
  ghost function Positions<V>(h: History<V>, es: seq<Entry<V>>): (k: History<V>)
    requires forall x | 0 <= x < |h| :: CallOf(h, x) in es && ReturnOf(h, x) in es
    ensures |k| == |h|
  {
    seq(|h|, x requires 0 <= x < |h| =>
      Op(h[x].input, h[x].output, PlaceOf(es, CallOf(h, x)), PlaceOf(es, ReturnOf(h, x))))
  }

  lemma {:induction false} SortedFacts<V>(h: History<V>, es: seq<Entry<V>>)
    requires IsSort(Earlier, es, Unsorted(h, |h|))
    ensures |es| == 2 * |h| && Distinct(es)
    ensures forall x | 0 <= x < |h| :: CallOf(h, x) in es && ReturnOf(h, x) in es
    ensures forall i | 0 <= i < |es| ::
      es[i].id < |h| && (es[i] == CallOf(h, es[i].id) || es[i] == ReturnOf(h, es[i].id))
  {
    var un := Unsorted(h, |h|);
    SameElements(es, un);
    UnsortedDistinct(h);
    NoNewDuplicates(es, un);
    forall x | 0 <= x < |h| ensures CallOf(h, x) in es && ReturnOf(h, x) in es {
      assert un[2 * x] in un && un[2 * x + 1] in un;
    }
    forall i | 0 <= i < |es| ensures es[i].id < |h| && (es[i] == CallOf(h, es[i].id) || es[i] == ReturnOf(h, es[i].id)) {
      assert es[i] in un;
      UnsortedMembers(h, es[i]);
    }
  }

  /** If every operation returns after its call, the list is well formed, whatever the sort did
      with ties. */
  lemma {:induction false} SortedDescribes<V>(h: History<V>, es: seq<Entry<V>>)
    requires IsSort(Earlier, es, Unsorted(h, |h|))
    requires forall x | 0 <= x < |h| :: h[x].call < h[x].ret
    ensures (forall x | 0 <= x < |h| :: CallOf(h, x) in es && ReturnOf(h, x) in es) && Describes(Positions(h, es), es)
  {
    hide Unsorted;
    SortedFacts(h, es);
    var k := Positions(h, es);
    forall x | 0 <= x < |k| ensures 0 <= k[x].call < k[x].ret < |es| {
      assert es[k[x].call] == CallOf(h, x) && es[k[x].ret] == ReturnOf(h, x);
    }
  }

  /** No return has the timestamp of a call. */
  ghost predicate NoTies<V>(h: History<V>) {
    forall a, b | 0 <= a < |h| && 0 <= b < |h| :: h[a].ret != h[b].call
  }

  /** Same operations, and the same operations ordered. */
  ghost predicate SamePrecedence<V>(h: History<V>, k: History<V>) {
    && |h| == |k|
    && forall a, b | 0 <= a < |h| && 0 <= b < |h| :: Precedes(h, a, b) <==> Precedes(k, a, b)
  }

  ghost predicate SameValues<V>(h: History<V>, k: History<V>) {
    |h| == |k| && forall x | 0 <= x < |h| :: h[x].input == k[x].input && h[x].output == k[x].output
  }

  /** Positions order whatever timestamps order, and nothing else when there are no ties. */
  lemma {:induction false} PositionsPrecede<V>(h: History<V>, es: seq<Entry<V>>, a: nat, b: nat)
    requires IsSort(Earlier, es, Unsorted(h, |h|))
    requires forall x | 0 <= x < |h| :: CallOf(h, x) in es && ReturnOf(h, x) in es
    requires a < |h| && b < |h|
    ensures Precedes(h, a, b) ==> Precedes(Positions(h, es), a, b)
    ensures Precedes(Positions(h, es), a, b) ==> h[a].ret <= h[b].call
  {
    var k := Positions(h, es);
    assert es[k[a].ret] == ReturnOf(h, a) && es[k[b].call] == CallOf(h, b);
  }

  lemma {:induction false} SameReplays<S, V>(m: Model<S, V>, h: History<V>, k: History<V>, s: S, order: seq<nat>)
    requires SameValues(h, k)
    ensures Replays(m, h, s, order) <==> Replays(m, k, s, order)
    decreases |order|
  {
    if order != [] && order[0] < |h| {
      SameReplays(m, h, k, StepState(m, h, s, order[0]), order[1..]);
    }
  }

  /** Fewer constraints, more linearizations. */
  lemma {:induction false} LooserIsLinearizable<S, V>(m: Model<S, V>, h: History<V>, k: History<V>)
    requires SameValues(h, k)
    requires forall a, b | 0 <= a < |h| && 0 <= b < |h| && Precedes(h, a, b) :: Precedes(k, a, b)
    ensures Linearizable(m, k) ==> Linearizable(m, h)
  {
    if Linearizable(m, k) {
      var order :| Linearization(m, k, order);
      SameReplays(m, h, k, m.init, order);
      assert Linearization(m, h, order);
    }
  }

  ghost predicate Proper<V>(h: History<V>) {
    forall x | 0 <= x < |h| :: h[x].call < h[x].ret
  }

  // ----- with ties the positions may say more than the timestamps

  /** The sort that puts returns before calls with the same timestamp. */
  predicate ReturnsFirst<V>(a: Entry<V>, b: Entry<V>) {
    a.time < b.time || (a.time == b.time && a.kind == ReturnEntry && b.kind == CallEntry)
  }

  /** Exactly the histories without ties keep their precedence under every sort. */
  lemma {:induction false} PrecedenceKeptIffNoTies<V(!new)>(h: History<V>)
    requires Proper(h)
    ensures NoTies(h) <==>
      forall es | IsSort(Earlier, es, Unsorted(h, |h|)) :: WellFormed(es) && SamePrecedence(h, HistoryOf(es))
  {
    forall es | IsSort(Earlier, es, Unsorted(h, |h|))
      ensures WellFormed(es) && (NoTies(h) ==> SamePrecedence(h, HistoryOf(es)))
    {
      SortedDescribes(h, es);
      HistoryUnique(Positions(h, es), es);
      forall a, b | 0 <= a < |h| && 0 <= b < |h| && NoTies(h) ensures Precedes(h, a, b) <==> Precedes(HistoryOf(es), a, b) {
        PositionsPrecede(h, es, a, b);
      }
    }
    if !NoTies(h) {
      var a, b :| 0 <= a < |h| && 0 <= b < |h| && h[a].ret == h[b].call;
      var es := TieBroken(h, a, b);
    }
  }

  lemma {:induction false} SortReturnsFirst<V(!new)>(un: seq<Entry<V>>) returns (es: seq<Entry<V>>)
    ensures IsSort(Earlier, es, un) && Sorted(ReturnsFirst, es)
  {
    es := SortExists(ReturnsFirst, un);
    forall i, j | 0 <= i < j < |es| ensures !Earlier(es[j], es[i]) { assert !ReturnsFirst(es[j], es[i]); }
  }

  lemma {:induction false} ReturnComesFirst<V>(h: History<V>, es: seq<Entry<V>>, a: nat, b: nat)
    requires forall x | 0 <= x < |h| :: CallOf(h, x) in es && ReturnOf(h, x) in es
    requires Sorted(ReturnsFirst, es) && a < |h| && b < |h| && h[a].ret == h[b].call
    ensures Precedes(Positions(h, es), a, b)
  {
    var k := Positions(h, es);
    assert es[k[a].ret] == ReturnOf(h, a) && es[k[b].call] == CallOf(h, b);
  }

  lemma {:induction false} TieBroken<V(!new)>(h: History<V>, a: nat, b: nat) returns (es: seq<Entry<V>>)
    requires Proper(h) && a < |h| && b < |h| && h[a].ret == h[b].call
    ensures IsSort(Earlier, es, Unsorted(h, |h|)) && WellFormed(es) && |HistoryOf(es)| == |h|
    ensures Precedes(HistoryOf(es), a, b) && !Precedes(h, a, b)
  {
    hide Unsorted, IsSort, Sorted, Describes;
    es := SortReturnsFirst(Unsorted(h, |h|));
    SortedDescribes(h, es);
    ReturnComesFirst(h, es, a, b);
    HistoryUnique(Positions(h, es), es);
  }

  // ----- exactly which histories every sort, or some sort, shows as linearizable

  /** The history in which a return at the time of a call comes before it: twice the times, and
      returns one tick earlier. */
  function Strict<V>(h: History<V>): (k: History<V>)
    ensures |k| == |h|
    ensures forall x | 0 <= x < |h| :: k[x] == Op(h[x].input, h[x].output, 2 * h[x].call, 2 * h[x].ret - 1)
  {
    seq(|h|, x requires 0 <= x < |h| => Op(h[x].input, h[x].output, 2 * h[x].call, 2 * h[x].ret - 1))
  }

  /** The sort that puts calls before returns with the same timestamp. */
  predicate CallsFirst<V>(a: Entry<V>, b: Entry<V>) {
    a.time < b.time || (a.time == b.time && a.kind == CallEntry && b.kind == ReturnEntry)
  }

  lemma {:induction false} SortCallsFirst<V(!new)>(un: seq<Entry<V>>) returns (es: seq<Entry<V>>)
    ensures IsSort(Earlier, es, un) && Sorted(CallsFirst, es)
  {
    es := SortExists(CallsFirst, un);
    forall i, j | 0 <= i < j < |es| ensures !Earlier(es[j], es[i]) { assert !CallsFirst(es[j], es[i]); }
  }

  lemma {:induction false} CallComesFirst<V>(h: History<V>, es: seq<Entry<V>>, a: nat, b: nat)
    requires forall x | 0 <= x < |h| :: CallOf(h, x) in es && ReturnOf(h, x) in es
    requires Sorted(CallsFirst, es) && a < |h| && b < |h| && Precedes(Positions(h, es), a, b)
    ensures Precedes(h, a, b)
  {
    var k := Positions(h, es);
    assert es[k[a].ret] == ReturnOf(h, a) && es[k[b].call] == CallOf(h, b);
  }

  /** Whatever the sort, what it shows lies between the strict history and the given one. */
  lemma {:induction false} SortsBetween<S, V(!new)>(m: Model<S, V>, h: History<V>, es: seq<Entry<V>>)
    requires IsSort(Earlier, es, Unsorted(h, |h|)) && Proper(h)
    ensures WellFormed(es)
    ensures Linearizable(m, Strict(h)) ==> Linearizable(m, HistoryOf(es))
    ensures Linearizable(m, HistoryOf(es)) ==> Linearizable(m, h)
  {
    hide Linearizable, IsSort, Describes, Unsorted;
    SortedDescribes(h, es);
    var k := Positions(h, es);
    HistoryUnique(k, es);
    forall a, b | 0 <= a < |h| && 0 <= b < |h|
      ensures Precedes(h, a, b) ==> Precedes(k, a, b)
      ensures Precedes(k, a, b) ==> Precedes(Strict(h), a, b)
    {
      PositionsPrecede(h, es, a, b);
    }
    LooserIsLinearizable(m, h, k);
    LooserIsLinearizable(m, k, Strict(h));
  }

  /** One sort shows the strict history. */
  lemma {:induction false} StrictSort<S, V(!new)>(m: Model<S, V>, h: History<V>) returns (es: seq<Entry<V>>)
    requires Proper(h)
    ensures IsSort(Earlier, es, Unsorted(h, |h|)) && WellFormed(es)
    ensures Linearizable(m, HistoryOf(es)) <==> Linearizable(m, Strict(h))
  {
    hide Linearizable, IsSort, Describes, Unsorted, Sorted;
    es := SortReturnsFirst(Unsorted(h, |h|));
    SortsBetween(m, h, es);
    SortedDescribes(h, es);
    var k := Positions(h, es);
    HistoryUnique(k, es);
    forall a, b | 0 <= a < |h| && 0 <= b < |h| && Precedes(Strict(h), a, b) ensures Precedes(k, a, b) {
      assert h[a].ret <= h[b].call;
      if h[a].ret == h[b].call {
        ReturnComesFirst(h, es, a, b);
      } else {
        PositionsPrecede(h, es, a, b);
      }
    }
    LooserIsLinearizable(m, Strict(h), k);
  }

  /** One sort shows the history as it is given. */
  lemma {:induction false} LooseSort<S, V(!new)>(m: Model<S, V>, h: History<V>) returns (es: seq<Entry<V>>)
    requires Proper(h)
    ensures IsSort(Earlier, es, Unsorted(h, |h|)) && WellFormed(es)
    ensures Linearizable(m, HistoryOf(es)) <==> Linearizable(m, h)
  {
    hide Linearizable, IsSort, Describes, Unsorted, Sorted;
    es := SortCallsFirst(Unsorted(h, |h|));
    SortsBetween(m, h, es);
    SortedDescribes(h, es);
    var k := Positions(h, es);
    HistoryUnique(k, es);
    forall a, b | 0 <= a < |h| && 0 <= b < |h| && Precedes(k, a, b) ensures Precedes(h, a, b) {
      CallComesFirst(h, es, a, b);
    }
    LooserIsLinearizable(m, k, h);
  }

  /** The entry lists of all sorts are linearizable exactly when the strict history is; that of
      some sort is, exactly when the given history is. */
  lemma {:induction false} SortsExactly<S, V(!new)>(m: Model<S, V>, h: History<V>)
    requires Proper(h)
    ensures Linearizable(m, Strict(h)) <==>
      forall es | IsSort(Earlier, es, Unsorted(h, |h|)) :: WellFormed(es) && Linearizable(m, HistoryOf(es))
    ensures Linearizable(m, h) <==>
      exists es | IsSort(Earlier, es, Unsorted(h, |h|)) :: WellFormed(es) && Linearizable(m, HistoryOf(es))
  {
    hide Linearizable, IsSort, Unsorted;
    forall es | IsSort(Earlier, es, Unsorted(h, |h|))
      ensures WellFormed(es)
      ensures Linearizable(m, Strict(h)) ==> Linearizable(m, HistoryOf(es))
      ensures Linearizable(m, HistoryOf(es)) ==> Linearizable(m, h)
    {
      SortsBetween(m, h, es);
    }
    var strict := StrictSort(m, h);
    var loose := LooseSort(m, h);
  }

  /** Without ties the strict history is no stricter. */
  lemma {:induction false} StrictWithoutTies<S, V(!new)>(m: Model<S, V>, h: History<V>)
    requires NoTies(h)
    ensures Linearizable(m, Strict(h)) <==> Linearizable(m, h)
  {
    hide Linearizable;
    assert forall a, b | 0 <= a < |h| && 0 <= b < |h| :: h[a].ret != h[b].call;
    LooserIsLinearizable(m, h, Strict(h));
    LooserIsLinearizable(m, Strict(h), h);
  }
}
