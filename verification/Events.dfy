/** porcupine/checker.go:87-114: a history that comes as a list of events. */
module Events {
  import opened Linearizability
  import opened Entries

  /** Ids are arbitrary integers as they come in, and natural numbers once they are renumbered. */
  datatype Event<V, I> = Event(kind: Kind, value: V, id: I)

  // ----- numbering the operations

  /** The numbers given out so far: ids are numbered in the order in which they first occur. */
  function Numbers<V>(events: seq<Event<V, int>>): map<int, nat> {
    if events == [] then map[]
    else
      var n := |events| - 1;
      var m := Numbers(events[..n]);
      if events[n].id in m then m else m[events[n].id := |m|]
  }

  lemma {:induction false} EventNumbered<V>(events: seq<Event<V, int>>, i: nat)
    requires i < |events|
    ensures events[i].id in Numbers(events)
  {
    if i < |events| - 1 {
      EventNumbered(events[..|events| - 1], i);
    }
  }

  /** Different ids get different numbers, below the number of ids. */
  lemma {:induction false} NumbersDiffer<V>(events: seq<Event<V, int>>, x: int, y: int)
    requires x in Numbers(events) && y in Numbers(events)
    ensures Numbers(events)[x] < |Numbers(events)| && (x != y ==> Numbers(events)[x] != Numbers(events)[y])
  {
    var n := |events| - 1;
    var m := Numbers(events[..n]);
    if x in m {
      NumbersDiffer(events[..n], x, x);
    }
    if y in m {
      NumbersDiffer(events[..n], y, y);
    }
    if x in m && y in m {
      NumbersDiffer(events[..n], x, y);
    }
  }

  /** Every number below is used. */
  lemma {:induction false} NumberUsed<V>(events: seq<Event<V, int>>, k: nat) returns (x: int)
    requires k < |Numbers(events)|
    ensures x in Numbers(events) && Numbers(events)[x] == k
  {
    var n := |events| - 1;
    if k < |Numbers(events[..n])| {
      x := NumberUsed(events[..n], k);
    } else {
      x := events[n].id;
    }
  }

  ghost predicate Renumbered<V>(events: seq<Event<V, int>>, es: seq<Event<V, nat>>) {
    |es| == |events| && forall i | 0 <= i < |es| ::
      events[i].id in Numbers(events) && es[i] == Event(events[i].kind, events[i].value, Numbers(events)[events[i].id])
  }

  /** checker.go:87-101. */
  method Renumber<V>(events: seq<Event<V, int>>) returns (e: seq<Event<V, nat>>)
    ensures Renumbered(events, e)
  {
    e := [];
    var m: map<int, nat> := map[];
    var id := 0;
    for i := 0 to |events|
      invariant |e| == i && m == Numbers(events[..i]) && id == |m|
      invariant forall j | 0 <= j < i ::
        events[j].id in m && e[j] == Event(events[j].kind, events[j].value, m[events[j].id])
    {
      var v := events[i];
      assert events[..i + 1][..i] == events[..i];
      if v.id in m {
        e := e + [Event(v.kind, v.value, m[v.id])];
      } else {
        e := e + [Event(v.kind, v.value, id)];
        m := m[v.id := id];
        id := id + 1;
      }
    }
    assert events[..|events|] == events;
  }

  /** checker.go:103-114: positions serve as times. */
  method ConvertEntries<V>(events: seq<Event<V, nat>>) returns (entries: seq<Entry<V>>)
    ensures |entries| == |events|
    ensures forall i | 0 <= i < |events| :: entries[i] == Entry(events[i].kind, events[i].value, events[i].id, i)
  {
    entries := [];
    for i := 0 to |events|
      invariant |entries| == i
      invariant forall j | 0 <= j < i :: entries[j] == Entry(events[j].kind, events[j].value, events[j].id, j)
    {
      entries := entries + [Entry(events[i].kind, events[i].value, events[i].id, i)];
    }
  }

  /** What becomes of a list of events. */
  ghost predicate Converted<V>(events: seq<Event<V, int>>, entries: seq<Entry<V>>) {
    |entries| == |events| && forall i | 0 <= i < |events| ::
      events[i].id in Numbers(events) && entries[i] == Entry(events[i].kind, events[i].value, Numbers(events)[events[i].id], i)
  }

  // ----- balanced histories

  /** The ids that have been called and those that have not returned yet. */
  datatype Ids = Ids(called: set<int>, open: set<int>)

  /** Reads the events in order; none if one does not fit: an id is called once, and returns
      once, after its call. */
  function Scan<V>(events: seq<Event<V, int>>): Option<Ids> {
    if events == [] then Some(Ids({}, {}))
    else
      var n := |events| - 1;
      var e := events[n];
      match Scan(events[..n])
      case None => None
      case Some(s) =>
        match e.kind
        case CallEntry => if e.id in s.called then None else Some(Ids(s.called + {e.id}, s.open + {e.id}))
        case ReturnEntry => if e.id in s.open then Some(Ids(s.called, s.open - {e.id})) else None
  }

  predicate Balanced<V>(events: seq<Event<V, int>>) {
    Scan(events).Some? && Scan(events).value.open == {}
  }

  lemma {:induction false} ScanSize<V>(events: seq<Event<V, int>>)
    requires Scan(events).Some?
    ensures var s := Scan(events).value;
      s.open <= s.called && |events| + |s.open| == 2 * |s.called| && s.called == Numbers(events).Keys
  {
    if events != [] {
      ScanSize(events[..|events| - 1]);
    }
  }

  /** Where the events of an id are. */
  ghost predicate Sits<V>(events: seq<Event<V, int>>, x: int, c: nat, r: nat) {
    && c < |events| && events[c].kind == CallEntry && events[c].id == x
    && (r < |events| ==> c < r && events[r].kind == ReturnEntry && events[r].id == x)
    && (forall i | 0 <= i < |events| && events[i].id == x :: i == c || i == r)
  }

  lemma {:induction false} ScanStep<V>(events: seq<Event<V, int>>)
    requires events != [] && Scan(events).Some?
    ensures var n := |events| - 1; var e := events[n];
      && Scan(events[..n]).Some?
      && var s, s' := Scan(events[..n]).value, Scan(events).value;
         && s.open <= s.called
         && (e.kind == CallEntry ==> e.id !in s.called && s' == Ids(s.called + {e.id}, s.open + {e.id}))
         && (e.kind == ReturnEntry ==> e.id in s.open && s' == Ids(s.called, s.open - {e.id}))
  {
    ScanSize(events[..|events| - 1]);
  }

  lemma {:induction false} Unheard<V>(events: seq<Event<V, int>>, x: int)
    requires Scan(events).Some? && x !in Scan(events).value.called
    ensures forall i | 0 <= i < |events| :: events[i].id != x
  {
    ScanSize(events);
    forall i | 0 <= i < |events| ensures events[i].id != x {
      EventNumbered(events, i);
    }
  }

  lemma {:induction false} Positions<V>(events: seq<Event<V, int>>, x: int) returns (c: nat, r: nat)
    requires Scan(events).Some? && x in Scan(events).value.called
    ensures Sits(events, x, c, r) && if x in Scan(events).value.open then r == |events| else r < |events|
    decreases |events|
  {
    assert events != [];
    ScanStep(events);
    if x in Scan(events[..|events| - 1]).value.called {
      c, r := OldPositions(events, x);
    } else {
      c, r := |events| - 1, |events|;
      NewPosition(events, x);
    }
  }

  lemma {:induction false} NewPosition<V>(events: seq<Event<V, int>>, x: int)
    requires events != [] && Scan(events).Some? && x in Scan(events).value.called
    requires Scan(events[..|events| - 1]).Some? && x !in Scan(events[..|events| - 1]).value.called
    ensures Sits(events, x, |events| - 1, |events|) && x in Scan(events).value.open
  {
    hide Scan;
    ScanStep(events);
    Unheard(events[..|events| - 1], x);
    assert forall i | 0 <= i < |events| - 1 :: events[..|events| - 1][i] == events[i];
  }

  lemma {:induction false} OldPositions<V>(events: seq<Event<V, int>>, x: int) returns (c: nat, r: nat)
    requires events != [] && Scan(events).Some?
    requires Scan(events[..|events| - 1]).Some? && x in Scan(events[..|events| - 1]).value.called
    ensures Sits(events, x, c, r) && if x in Scan(events).value.open then r == |events| else r < |events|
    decreases |events|, 0
  {
    hide Scan;
    var n := |events| - 1;
    ScanStep(events);
    c, r := Positions(events[..n], x);
    SitsOn(events, x, c, r);
    if r == n && events[n].id != x {
      r := n + 1;
    }
  }

  lemma {:induction false} SitsOn<V>(events: seq<Event<V, int>>, x: int, c: nat, r: nat)
    requires events != [] && Sits(events[..|events| - 1], x, c, r) && r <= |events| - 1
    ensures forall i | 0 <= i < |events| && events[i].id == x :: i == c || i == r || i == |events| - 1
    ensures c < |events| - 1 && events[c].kind == CallEntry && events[c].id == x
    ensures r < |events| - 1 ==> c < r && events[r].kind == ReturnEntry && events[r].id == x
  {
    var es := events[..|events| - 1];
    assert forall i | 0 <= i < |es| :: es[i] == events[i];
  }

  /** The operation with this id, with positions as times. */
  ghost predicate IsOp<V>(events: seq<Event<V, int>>, x: int, op: Op<V>) {
    && 0 <= op.call < op.ret < |events| && Sits(events, x, op.call, op.ret)
    && op.input == events[op.call].value && op.output == events[op.ret].value
  }

  /** The history of a balanced list of events: operation k is the k-th id to be called. */
  ghost predicate EventHistory<V>(events: seq<Event<V, int>>, h: History<V>) {
    |h| == |Numbers(events)| && forall x | x in Numbers(events) :: Numbers(events)[x] < |h| && IsOp(events, x, h[Numbers(events)[x]])
  }

  lemma {:induction false} OpOf<V>(events: seq<Event<V, int>>, k: nat) returns (x: int, op: Op<V>)
    requires Balanced(events) && k < |Numbers(events)|
    ensures x in Numbers(events) && Numbers(events)[x] == k && IsOp(events, x, op)
  {
    x := NumberUsed(events, k);
    ScanSize(events);
    var c, r := Positions(events, x);
    op := Op(events[c].value, events[r].value, c, r);
  }

  lemma {:induction false} HistoryUpTo<V>(events: seq<Event<V, int>>, k: nat) returns (h: History<V>)
    requires Balanced(events) && k <= |Numbers(events)|
    ensures |h| == k && forall x | x in Numbers(events) && Numbers(events)[x] < k :: IsOp(events, x, h[Numbers(events)[x]])
  {
    if k == 0 {
      h := [];
    } else {
      var h' := HistoryUpTo(events, k - 1);
      var y, op := OpOf(events, k - 1);
      h := h' + [op];
      forall x | x in Numbers(events) && Numbers(events)[x] < k ensures IsOp(events, x, h[Numbers(events)[x]]) {
        NumbersDiffer(events, x, y);
      }
    }
  }

  /** A balanced list of events becomes a well-formed list of entries, which stands for the
      history of the events. */
  lemma {:induction false} BalancedWellFormed<V(!new)>(events: seq<Event<V, int>>, entries: seq<Entry<V>>)
    requires Balanced(events) && Converted(events, entries)
    ensures WellFormed(entries) && EventHistory(events, HistoryOf(entries))
  {
    hide Scan, IsOp;
    ScanSize(events);
    var h := HistoryUpTo(events, |Numbers(events)|);
    forall x | x in Numbers(events) ensures Numbers(events)[x] < |h| {
      NumbersDiffer(events, x, x);
    }
    EntriesDescribe(events, entries, h);
    HistoryUnique(h, entries);
  }

  lemma {:induction false} EntriesDescribe<V(!new)>(events: seq<Event<V, int>>, entries: seq<Entry<V>>, h: History<V>)
    requires Converted(events, entries) && EventHistory(events, h) && |events| == 2 * |h|
    ensures Describes(h, entries)
  {
    hide Numbers;
    forall i | 0 <= i < |entries|
      ensures entries[i].id < |h| && i == if entries[i].kind == CallEntry then h[entries[i].id].call else h[entries[i].id].ret
    {
      assert IsOp(events, events[i].id, h[Numbers(events)[events[i].id]]);
    }
    forall k | 0 <= k < |h|
      ensures 0 <= h[k].call < h[k].ret < |entries|
      ensures var e := entries[h[k].call]; e.kind == CallEntry && e.id == k && e.value == h[k].input
      ensures var e := entries[h[k].ret]; e.kind == ReturnEntry && e.id == k && e.value == h[k].output
    {
      var x := NumberUsed(events, k);
      assert IsOp(events, x, h[k]);
    }
  }

  /** There is one such history. */
  lemma {:induction false} EventHistoryUnique<V>(events: seq<Event<V, int>>, h: History<V>, h': History<V>)
    requires EventHistory(events, h) && EventHistory(events, h')
    ensures h == h'
  {
    forall k | 0 <= k < |h| ensures h[k] == h'[k] {
      var x := NumberUsed(events, k);
      assert IsOp(events, x, h[k]) && IsOp(events, x, h'[k]);
    }
  }
}
