/** porcupine/checker.go:186-238 as steps on values, so that runs of the search can be spoken of:
    how far one that is killed has come, and what it has recorded by then. */
module SearchRun {
  import opened Linearizability
  import opened Search
  import opened Entries

  datatype Spot<S(==)> = Spot(stack: seq<nat>, pos: nat, cached: set<Config<S>>, longest: Longest)

  /** The first entry from `lo` on whose operation is not in `done`, or the end of the list. */
  ghost predicate FirstOpen<V>(es: seq<Entry<V>>, done: set<nat>, lo: int, pos: nat) {
    && 0 <= lo <= pos <= |es|
    && (pos < |es| ==> es[pos].id !in done)
    && forall k | lo <= k < pos :: es[k].id in done
  }

  lemma {:induction false} FirstOpenUnique<V>(es: seq<Entry<V>>, done: set<nat>, lo: int, p: nat, q: nat)
    requires FirstOpen(es, done, lo, p) && FirstOpen(es, done, lo, q)
    ensures p == q
  {
    if p < q || q < p {
      assert false;
    }
  }

  /** The specification allows `x` next, and that leads to no cached configuration. */
  ghost predicate LeadsOn<S, V>(m: Model<S, V>, h: History<V>, stack: seq<nat>, cached: set<Config<S>>, x: nat)
    requires InRange(h, stack) && x < |h|
  {
    var s := StateAfter(m, h, m.init, stack);
    && StepOk(m, h, s, x)
    && forall c | c in cached && c.done == Elems(stack) + {x} :: !m.equal(StepState(m, h, s, x), c.state)
  }

  ghost predicate Skips<S, V>(es: seq<Entry<V>>, a: Spot<S>, b: Spot<S>) {
    FirstOpen(es, Elems(a.stack), a.pos + 1, b.pos) && b == a.(pos := b.pos)
  }

  ghost predicate Pushes<S, V>(m: Model<S, V>, h: History<V>, es: seq<Entry<V>>, a: Spot<S>, x: nat, b: Spot<S>)
    requires InRange(h, a.stack) && x < |h|
  {
    var done := Elems(a.stack) + {x};
    && FirstOpen(es, done, 0, b.pos)
    && b == Spot(a.stack + [x], b.pos,
                 a.cached + {Config(done, StepState(m, h, StateAfter(m, h, m.init, a.stack), x))}, a.longest)
  }

  ghost predicate Pops<S, V>(h: History<V>, es: seq<Entry<V>>, partial: bool, a: Spot<S>, b: Spot<S>)
    requires InRange(h, a.stack)
  {
    && a.stack != []
    && var k := |a.stack| - 1;
      && FirstOpen(es, Elems(a.stack[..k]), h[a.stack[k]].call + 1, b.pos)
      && b == Spot(a.stack[..k], b.pos, a.cached, if partial then Record(a.longest, a.stack) else a.longest)
  }

  lemma {:induction false} PopsAgain<S, V>(h: History<V>, es: seq<Entry<V>>, partial: bool, a: Spot<S>, b: Spot<S>, x: nat, longest: Longest)
    requires InRange(h, a.stack) && a.stack == b.stack + [x] && x < |h|
    requires FirstOpen(es, Elems(b.stack), h[x].call + 1, b.pos) && a.cached == b.cached && b.longest == longest
    requires longest == if partial then Record(a.longest, a.stack) else a.longest
    ensures Pops(h, es, partial, a, b)
  {
    hide FirstOpen, Record;
    assert a.stack[..|a.stack| - 1] == b.stack;
  }

  /** One iteration of the loop. */
  ghost predicate Moves<S, V>(m: Model<S, V>, h: History<V>, es: seq<Entry<V>>, partial: bool, a: Spot<S>, b: Spot<S>) {
    && InRange(h, a.stack) && a.pos < |es| && es[a.pos].id < |h|
    && match es[a.pos].kind
       case CallEntry =>
         if LeadsOn(m, h, a.stack, a.cached, es[a.pos].id)
         then Pushes(m, h, es, a, es[a.pos].id, b)
         else Skips(es, a, b)
       case ReturnEntry => Pops(h, es, partial, a, b)
  }

  ghost predicate Starts<S, V>(h: History<V>, es: seq<Entry<V>>, a: Spot<S>) {
    FirstOpen(es, {}, 0, a.pos) && a == Spot([], a.pos, {}, seq(|h|, _ => None))
  }

  /** The spots that a run of the search has been on, first to last. */
  ghost predicate Chain<S, V>(m: Model<S, V>, h: History<V>, es: seq<Entry<V>>, partial: bool, t: seq<Spot<S>>) {
    && |t| > 0 && Starts(h, es, t[0])
    && forall i | 0 <= i < |t| - 1 :: Moves(m, h, es, partial, t[i], t[i + 1])
  }

  lemma {:induction false} ChainStart<S, V>(m: Model<S, V>, h: History<V>, es: seq<Entry<V>>, partial: bool, a: Spot<S>)
    requires Starts(h, es, a)
    ensures Chain(m, h, es, partial, [a])
  {
  }

  lemma {:induction false} ChainOn<S, V>(m: Model<S, V>, h: History<V>, es: seq<Entry<V>>, partial: bool, t: seq<Spot<S>>, b: Spot<S>)
    requires Chain(m, h, es, partial, t) && Moves(m, h, es, partial, t[|t| - 1], b)
    ensures Chain(m, h, es, partial, t + [b])
  {
    hide Moves;
  }

  ghost predicate EveryoneGets(longest: Longest, n: nat, stack: seq<nat>) {
    |longest| == n && forall i | 0 <= i < n :: longest[i] == Some(stack)
  }

  lemma {:induction false} MovesUnique<S, V>(m: Model<S, V>, h: History<V>, es: seq<Entry<V>>, partial: bool, a: Spot<S>, b: Spot<S>, c: Spot<S>)
    requires Moves(m, h, es, partial, a, b) && Moves(m, h, es, partial, a, c)
    ensures b == c
  {
    hide FirstOpen, LeadsOn;
    var x := es[a.pos].id;
    if es[a.pos].kind == ReturnEntry {
      var k := |a.stack| - 1;
      FirstOpenUnique(es, Elems(a.stack[..k]), h[a.stack[k]].call + 1, b.pos, c.pos);
    } else if LeadsOn(m, h, a.stack, a.cached, x) {
      FirstOpenUnique(es, Elems(a.stack) + {x}, 0, b.pos, c.pos);
    } else {
      FirstOpenUnique(es, Elems(a.stack), a.pos + 1, b.pos, c.pos);
    }
  }

  /** How many iterations a run has made decides where it is and what it has recorded. */
  lemma {:induction false} ChainUnique<S, V>(m: Model<S, V>, h: History<V>, es: seq<Entry<V>>, partial: bool, t: seq<Spot<S>>, u: seq<Spot<S>>, n: nat)
    requires Chain(m, h, es, partial, t) && Chain(m, h, es, partial, u) && n < |t| && n < |u|
    ensures t[n] == u[n]
  {
    hide Moves;
    if n == 0 {
      FirstOpenUnique(es, {}, 0, t[0].pos, u[0].pos);
    } else {
      ChainUnique(m, h, es, partial, t, u, n - 1);
      var i := n - 1;
      assert Moves(m, h, es, partial, t[i], t[i + 1]) && Moves(m, h, es, partial, u[i], u[i + 1]);
      MovesUnique(m, h, es, partial, t[i], t[n], u[n]);
    }
  }

  // ----- what a run has recorded

  /** The run backtracks at its j-th iteration. */
  ghost predicate PopsAt<S, V>(es: seq<Entry<V>>, t: seq<Spot<S>>, j: nat) {
    j < |t| - 1 && t[j].pos < |es| && es[t[j].pos].kind == ReturnEntry
  }

  /** Backtracking by iteration `n` has taken off the stack of spot `j`, with `i` on it. */
  ghost predicate TookOff<S, V>(es: seq<Entry<V>>, t: seq<Spot<S>>, n: nat, i: nat, j: nat) {
    j < n && PopsAt(es, t, j) && i in t[j].stack
  }

  /** `o` is the first of the longest stacks with `i` on them that backtracking has taken off. */
  ghost predicate FirstLongest<S, V>(es: seq<Entry<V>>, t: seq<Spot<S>>, n: nat, i: nat, o: Option<seq<nat>>) {
    match o
    case None => forall j: nat :: !TookOff(es, t, n, i, j)
    case Some(p) =>
      && (forall j: nat | TookOff(es, t, n, i, j) :: |t[j].stack| <= |p|)
      && exists k: nat :: FirstWith(es, t, n, i, p, k)
  }

  ghost predicate FirstWith<S, V>(es: seq<Entry<V>>, t: seq<Spot<S>>, n: nat, i: nat, p: seq<nat>, k: nat) {
    && TookOff(es, t, n, i, k) && t[k].stack == p
    && forall j: nat | TookOff(es, t, n, i, j) && j < k :: |t[j].stack| < |p|
  }

  lemma {:induction false} ChainMoves<S, V>(m: Model<S, V>, h: History<V>, es: seq<Entry<V>>, partial: bool, t: seq<Spot<S>>, n: nat)
    requires Chain(m, h, es, partial, t) && n + 1 < |t|
    ensures Moves(m, h, es, partial, t[n], t[n + 1])
  {
    hide Moves;
  }

  /** An iteration that does not backtrack records nothing; one that does records its stack. */
  lemma {:induction false} MoveRecords<S, V>(m: Model<S, V>, h: History<V>, es: seq<Entry<V>>, t: seq<Spot<S>>, n: nat)
    requires Chain(m, h, es, true, t) && n + 1 < |t|
    ensures t[n + 1].longest == if PopsAt(es, t, n) then Record(t[n].longest, t[n].stack) else t[n].longest
  {
    hide FirstOpen, LeadsOn, InRange, Record, Chain;
    ChainMoves(m, h, es, true, t, n);
  }

  /** With partial results on, a run has recorded for every operation, at every point, the first
      of the longest stacks it has backtracked from with that operation on them. */
  lemma {:induction false} RecordedExactly<S, V>(m: Model<S, V>, h: History<V>, es: seq<Entry<V>>, t: seq<Spot<S>>, n: nat, i: nat)
    requires Chain(m, h, es, true, t) && n < |t| && i < |h|
    ensures |t[n].longest| == |h| && FirstLongest(es, t, n, i, t[n].longest[i])
  {
    hide Moves, Chain, FirstLongest;
    if n == 0 {
      NothingTaken(m, h, es, t, i);
    } else {
      RecordedExactly(m, h, es, t, n - 1, i);
      MoveRecords(m, h, es, t, n - 1);
      if PopsAt(es, t, n - 1) && i in t[n - 1].stack {
        TakesOne(es, t, n - 1, i, t[n - 1].longest[i]);
      } else {
        TakesNone(es, t, n - 1, i, t[n - 1].longest[i]);
      }
    }
  }

  lemma {:induction false} ChainLength<S, V>(m: Model<S, V>, h: History<V>, es: seq<Entry<V>>, t: seq<Spot<S>>)
    requires Chain(m, h, es, true, t)
    ensures |t| > 0 && |t[|t| - 1].longest| == |h|
  {
    hide Moves, FirstLongest;
    var n: nat := |t| - 1;
    for k: nat := 0 to n
      invariant |t[k].longest| == |h|
    {
      MoveRecords(m, h, es, t, k);
    }
  }

  lemma {:induction false} NothingTaken<S, V>(m: Model<S, V>, h: History<V>, es: seq<Entry<V>>, t: seq<Spot<S>>, i: nat)
    requires Chain(m, h, es, true, t) && i < |h|
    ensures |t[0].longest| == |h| && FirstLongest(es, t, 0, i, t[0].longest[i])
  {
    hide Moves;
  }

  lemma {:induction false} TakesNone<S, V>(es: seq<Entry<V>>, t: seq<Spot<S>>, n: nat, i: nat, o: Option<seq<nat>>)
    requires FirstLongest(es, t, n, i, o) && !TookOff(es, t, n + 1, i, n)
    ensures FirstLongest(es, t, n + 1, i, o)
  {
    var n' := n + 1;
    assert forall j: nat :: TookOff(es, t, n', i, j) <==> TookOff(es, t, n, i, j);
    if o.Some? {
      var k: nat :| FirstWith(es, t, n, i, o.value, k);
      assert FirstWith(es, t, n', i, o.value, k);
    }
  }

  lemma {:induction false} TakesOne<S, V>(es: seq<Entry<V>>, t: seq<Spot<S>>, n: nat, i: nat, o: Option<seq<nat>>)
    requires FirstLongest(es, t, n, i, o) && TookOff(es, t, n + 1, i, n)
    ensures FirstLongest(es, t, n + 1, i, if o.None? || |t[n].stack| > |o.value| then Some(t[n].stack) else o)
  {
    var n' := n + 1;
    assert forall j: nat :: TookOff(es, t, n', i, j) <==> TookOff(es, t, n, i, j) || j == n;
    if o.None? || |t[n].stack| > |o.value| {
      assert FirstWith(es, t, n', i, t[n].stack, n);
    } else {
      var k: nat :| FirstWith(es, t, n, i, o.value, k);
      assert FirstWith(es, t, n', i, o.value, k);
    }
  }

  /** So every stack it has backtracked from is covered. */
  lemma {:induction false} PoppedCovered<S, V>(m: Model<S, V>, h: History<V>, es: seq<Entry<V>>, t: seq<Spot<S>>, n: nat, j: nat, i: nat)
    requires Chain(m, h, es, true, t) && n < |t| && j < n && PopsAt(es, t, j) && i in t[j].stack
    ensures Covers(t[n].longest, i, |t[j].stack|)
  {
    hide Moves, PopsAt;
    assert i < |h| by { OnStack(m, h, es, t, j, i); }
    RecordedExactly(m, h, es, t, n, i);
    assert TookOff(es, t, n, i, j);
  }

  lemma {:induction false} OnStack<S, V>(m: Model<S, V>, h: History<V>, es: seq<Entry<V>>, t: seq<Spot<S>>, j: nat, i: nat)
    requires Chain(m, h, es, true, t) && j + 1 < |t| && i in t[j].stack
    ensures i < |h|
  {
    hide LeadsOn, Pushes, Pops, Skips;
    ChainMoves(m, h, es, true, t, j);
  }

  /** With partial results off, nothing is ever recorded. */
  lemma {:induction false} NothingRecorded<S, V>(m: Model<S, V>, h: History<V>, es: seq<Entry<V>>, t: seq<Spot<S>>, n: nat)
    requires Chain(m, h, es, false, t) && n < |t|
    ensures t[n].longest == seq(|h|, _ => None)
  {
    if n > 0 {
      NothingRecorded(m, h, es, t, n - 1);
      ChainMoves(m, h, es, false, t, n - 1);
    }
  }
}
