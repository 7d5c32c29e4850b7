/** porcupine/checker.go:174-248: the search itself, on the linked list, the bitset and the
    hashed cache, proved against the invariant of Search.dfy. */
module CheckSingle {
  import opened Linearizability
  import opened Search
  import opened Termination
  import opened Entries
  import opened SearchRun
  import opened LinkedEntries
  import opened EntryList
  import opened Bitset
  import opened Cache

  datatype CallsEntry<S, V> = CallsEntry(entry: Node<V>, state: S)

  ghost predicate CallsInv<S, V>(
    m: Model<S, V>, calls: seq<CallsEntry<S, V>>, nodes: seq<Node<V>>, h: History<V>, es: seq<Entry<V>>, stack: seq<nat>)
    requires Mirrors(nodes, h, es) && InRange(h, stack)
  {
    && |calls| == |stack|
    && forall j | 0 <= j < |calls| ::
         calls[j] == CallsEntry(nodes[h[stack[j]].call + 1], StateAfter(m, h, m.init, stack[..j]))
  }

  /** The cursor is on a node of the list, or the list is empty and there is no cursor. */
  ghost predicate CursorInv<V>(entry: Node?<V>, pos: nat, nodes: seq<Node<V>>, es: seq<Entry<V>>, stack: seq<nat>)
    requires |nodes| == |es| + 1
  {
    && pos <= |es|
    && entry == At(nodes, pos + 1)
    && (pos < |es| ==> pos + 1 in Live(es, Elems(stack)))
    && (pos == |es| ==> Live(es, Elems(stack)) == {0})
  }

  lemma {:induction false} OpenAfter<V>(es: seq<Entry<V>>, done: set<nat>, i: nat, pos: nat)
    requires i <= pos <= |es| && (pos < |es| ==> pos + 1 in Live(es, done))
    requires forall k: nat | i < k <= pos :: k !in Live(es, done)
    ensures FirstOpen(es, done, i, pos)
  {
    forall k | i <= k < pos ensures es[k].id in done {
      var j := k + 1;
      assert j !in Live(es, done);
    }
  }

  lemma {:induction false} FirstNode<V>(h: History<V>, es: seq<Entry<V>>, done: set<nat>, l: Links) returns (pos: nat)
    requires Describes(h, es) && Linked(l, Live(es, done)) && |l.next| == |es| + 1
    ensures pos + 1 == l.next[0] <= |es| + 1 && Gap(h, done, 0, pos)
    ensures pos < |es| ==> pos + 1 in Live(es, done)
    ensures pos == |es| ==> Live(es, done) == {0} && forall x: nat | x < |h| :: x in done
    ensures FirstOpen(es, done, 0, pos)
  {
    var live := Live(es, done);
    pos := Succ(live, 0, |es| + 1) - 1;
    assert l.next[0] == pos + 1;
    LiveGap(h, es, done, 0, pos + 1);
    OpenAfter(es, done, 0, pos);
    if pos == |es| {
      forall x: nat | x < |h| ensures x in done { LiveOps(h, es, done, x); }
    }
  }

  lemma {:induction false} NextNode<V>(h: History<V>, es: seq<Entry<V>>, done: set<nat>, l: Links, x: nat) returns (pos: nat)
    requires Describes(h, es) && Linked(l, Live(es, done)) && |l.next| == |es| + 1
    requires x < |h| && x !in done
    ensures pos + 1 == l.next[h[x].call + 1] && h[x].call < pos < |es|
    ensures Gap(h, done, h[x].call + 1, pos)
    ensures pos + 1 in Live(es, done) && FirstOpen(es, done, h[x].call + 1, pos)
  {
    var live := Live(es, done);
    LiveOps(h, es, done, x);
    pos := Succ(live, h[x].call + 1, |es| + 1) - 1;
    assert l.next[h[x].call + 1] == pos + 1;
    LiveGap(h, es, done, h[x].call + 1, pos + 1);
    OpenAfter(es, done, h[x].call + 1, pos);
  }

  lemma {:induction false} CursorNode<V>(nodes: seq<Node<V>>, h: History<V>, es: seq<Entry<V>>, done: set<nat>, pos: nat)
    requires Mirrors(nodes, h, es) && pos < |es| && pos + 1 in Live(es, done)
    ensures pos + 1 < |nodes|
    ensures var n := nodes[pos + 1];
      && 0 <= n.id < |h| && n.id !in done && n.value.Some?
      && (n.matching != null ==>
            && h[n.id].call == pos && n.value == Some(h[n.id].input) && 0 <= h[n.id].ret < |es|
            && n.matching == nodes[h[n.id].ret + 1] && n.matching.value == Some(h[n.id].output))
      && (n.matching == null ==> h[n.id].ret == pos)
      && es[pos].id == n.id && (es[pos].kind == CallEntry <==> n.matching != null)
  {
    CursorOp(h, es, done, pos + 1);
    var n := nodes[pos + 1];
    assert NodeFor(n, es, pos);
    assert n.matching == n.matching;
    if n.matching != null {
      var r := es[h[n.id].ret];
      assert NodeFor(nodes[h[n.id].ret + 1], es, h[n.id].ret);
    }
  }

  lemma {:induction false} NextField<V>(nodes: seq<Node<V>>, l: Links, i: nat)
    requires Holds(nodes, l) && i < |nodes|
    ensures nodes[i].next == At(nodes, l.next[i])
  {
  }

  lemma {:induction false} StackPush<V>(h: History<V>, stack: seq<nat>, x: nat)
    requires InRange(h, stack) && Distinct(stack) && x < |h| && x !in Elems(stack)
    ensures InRange(h, stack + [x]) && Distinct(stack + [x]) && Elems(stack + [x]) == Elems(stack) + {x}
    ensures |stack| < |h|
  {
    assert forall i | 0 <= i < |stack| :: stack[i] in Elems(stack);
    ElemsAppend(stack, x);
    DistinctSize(stack + [x]);
    FullSet(Elems(stack + [x]), |h|);
  }

  lemma {:induction false} CallsPush<S, V>(
    m: Model<S, V>, calls: seq<CallsEntry<S, V>>, nodes: seq<Node<V>>, h: History<V>, es: seq<Entry<V>>, stack: seq<nat>, x: nat)
    requires Mirrors(nodes, h, es) && InRange(h, stack) && x < |h| && 0 <= h[x].call < |es|
    requires CallsInv(m, calls, nodes, h, es, stack) && InRange(h, stack + [x])
    ensures CallsInv(m, calls + [CallsEntry(nodes[h[x].call + 1], StateAfter(m, h, m.init, stack))], nodes, h, es, stack + [x])
  {
    var stack' := stack + [x];
    assert forall j | 0 <= j <= |stack| :: stack'[..j] == stack[..j];
    assert stack[..|stack|] == stack;
  }

  lemma {:induction false} CallsPop<S, V>(
    m: Model<S, V>, calls: seq<CallsEntry<S, V>>, nodes: seq<Node<V>>, h: History<V>, es: seq<Entry<V>>, stack: seq<nat>)
    requires Mirrors(nodes, h, es) && InRange(h, stack) && stack != [] && CallsInv(m, calls, nodes, h, es, stack)
    ensures var k := |stack| - 1;
      && |calls| == k + 1 && InRange(h, stack[..k])
      && CallsInv(m, calls[..k], nodes, h, es, stack[..k])
      && 0 <= h[stack[k]].call < |es|
      && calls[k] == CallsEntry(nodes[h[stack[k]].call + 1], StateAfter(m, h, m.init, stack[..k]))
      && calls[k].entry.id == stack[k]
  {
    var k := |stack| - 1;
    assert forall j | 0 <= j <= k :: stack[..k][..j] == stack[..j];
    PairFacts(nodes, h, es, {}, stack[k]);
  }

  lemma {:induction false} StackPop<V>(h: History<V>, stack: seq<nat>)
    requires InRange(h, stack) && Distinct(stack) && stack != []
    ensures var k := |stack| - 1;
      && stack == stack[..k] + [stack[k]] && stack[k] < |h| && stack[k] !in Elems(stack[..k])
      && InRange(h, stack[..k]) && Distinct(stack[..k]) && Elems(stack) - {stack[k]} == Elems(stack[..k])
  {
    var k := |stack| - 1;
    assert stack == stack[..k] + [stack[k]];
    ElemsAppend(stack[..k], stack[k]);
  }

  lemma {:induction false} CallIds<S, V>(
    m: Model<S, V>, calls: seq<CallsEntry<S, V>>, nodes: seq<Node<V>>, h: History<V>, es: seq<Entry<V>>, stack: seq<nat>)
    requires Mirrors(nodes, h, es) && InRange(h, stack) && CallsInv(m, calls, nodes, h, es, stack)
    ensures forall j | 0 <= j < |stack| :: calls[j].entry.id == stack[j]
  {
    forall j | 0 <= j < |stack| ensures calls[j].entry.id == stack[j] {
      PairFacts(nodes, h, es, {}, stack[j]);
    }
  }

  lemma {:induction false} StartFacts<S, V>(m: Model<S, V>, nodes: seq<Node<V>>, h: History<V>, es: seq<Entry<V>>)
    requires Mirrors(nodes, h, es)
    ensures |es| == 2 * |h|
    ensures Elems([]) == {} && LinksAfter(h, es, []) == FullLinks(|es| + 1) && FullLinks(|es| + 1).next[0] == 1
    ensures StateAfter(m, h, m.init, []) == m.init && CallsInv(m, [], nodes, h, es, [])
  {
  }

  /** checker.go:200-201.  Neither step touches a cached bitset. */
  method TakeOut<S, V>(
    linearized: array<Word>, entry: Node<V>, ghost nodes: seq<Node<V>>, ghost h: History<V>, ghost es: seq<Entry<V>>,
    ghost stack: seq<nat>, ghost x: nat, ghost cache: Cache<S>, ghost bitsets: set<array<Word>>)
    requires Mirrors(nodes, h, es) && InRange(h, stack) && Distinct(stack) && x < |h| && x !in Elems(stack)
    requires entry == At(nodes, h[x].call + 1) && entry.id == x && Holds(nodes, LinksAfter(h, es, stack))
    requires Within(cache, bitsets) && linearized !in bitsets && |h| <= 64 * linearized.Length
    modifies linearized, nodes
    ensures InRange(h, stack + [x]) && Distinct(stack + [x])
    ensures Holds(nodes, LinksAfter(h, es, stack + [x]))
    ensures Members(linearized[..]) == old(Members(linearized[..])) + {x}
    ensures Configs(cache, bitsets) == old(Configs(cache, bitsets))
    ensures ValidCache(cache, bitsets, linearized.Length) == old(ValidCache(cache, bitsets, linearized.Length))
  {
    hide Mirrors, InRange, Distinct, Holds, LinksAfter, Members, Configs, ValidCache, Within, Elems, HashOf;
    Set(linearized, entry.id);
    LiftOp(entry, nodes, h, es, stack, x);
  }

  /** checker.go:233 and 235. */
  method PutBack<S, V>(
    linearized: array<Word>, entry: Node<V>, ghost nodes: seq<Node<V>>, ghost h: History<V>, ghost es: seq<Entry<V>>,
    ghost stack: seq<nat>, ghost x: nat, ghost cache: Cache<S>, ghost bitsets: set<array<Word>>)
    requires Mirrors(nodes, h, es) && InRange(h, stack) && Distinct(stack) && x < |h| && x !in Elems(stack)
    requires InRange(h, stack + [x]) && Distinct(stack + [x])
    requires entry == At(nodes, h[x].call + 1) && entry.id == x && Holds(nodes, LinksAfter(h, es, stack + [x]))
    requires Within(cache, bitsets) && linearized !in bitsets && |h| <= 64 * linearized.Length
    modifies linearized, nodes
    ensures Holds(nodes, LinksAfter(h, es, stack))
    ensures Members(linearized[..]) == old(Members(linearized[..])) - {x}
    ensures Configs(cache, bitsets) == old(Configs(cache, bitsets))
    ensures ValidCache(cache, bitsets, linearized.Length) == old(ValidCache(cache, bitsets, linearized.Length))
  {
    hide Mirrors, InRange, Distinct, Holds, LinksAfter, Members, Configs, ValidCache, Within, Elems, HashOf;
    Clear(linearized, entry.id);
    UnliftOp(entry, nodes, h, es, stack, x);
  }

  /** The local variables of checkSingle.  `stack` and `pos` are the values that Search.dfy
      speaks about: the identifiers on `calls` and the place of `entry`. */
  class Searcher<S(!new), V(!new)> {
    const model: Model<S, V>
    const computePartial: bool
    const headEntry: Node<V>
    const linearized: array<Word>
    ghost const history: seq<Entry<V>>
    ghost const h: History<V>
    ghost const nodes: seq<Node<V>>
    var entry: Node?<V>
    var state: S
    var cache: Cache<S>
    var calls: seq<CallsEntry<S, V>>
    var longest: Longest
    ghost var bitsets: set<array<Word>> // the bitsets that the cache refers to
    ghost var stack: seq<nat>
    ghost var pos: nat

    /** checker.go:175-184. */
    constructor (model: Model<S, V>, history: seq<Entry<V>>, computePartial: bool)
      requires WellFormed(history) && EqualRespectsStep(model)
      ensures Valid() && fresh(linearized) && forall k | 0 <= k < |nodes| :: fresh(nodes[k])
      ensures this.model == model && this.computePartial == computePartial
      ensures this.history == history && h == HistoryOf(history)
      ensures Within(cache, bitsets) && Starts(h, history, Here())
    {
      hide SearchInv, Mirrors, Describes, WellTimed, LinksAfter, EqualRespectsStep, CallsInv, Members, Holds, StateAfter, Live, FullLinks, Linked;
      ghost var hist := HistoryOf(history);
      HistoryWellTimed(hist, history);
      var head, first, n, all := BuildList(history, hist);
      var bits := NewBitset(n);
      StartFacts(model, all, hist, history);
      FullLinked(history);
      ghost var p := FirstNode(hist, history, {}, FullLinks(|history| + 1));
      this.model, this.computePartial, this.history, this.h := model, computePartial, history, hist;
      headEntry, nodes, linearized := head, all, bits;
      entry, state, cache, calls := first, model.init, map[], [];
      longest := seq(n, _ => None);
      bitsets, stack, pos := {}, [], p;
      new;
      assert Configs(cache, bitsets) == {};
      SearchStart(model, h, computePartial, pos, longest);
    }

    ghost predicate Valid()
      reads this, nodes, linearized, bitsets
    {
      && EqualRespectsStep(model)
      && Describes(h, history) && |history| == 2 * |h| && WellTimed(h)
      && Mirrors(nodes, h, history) && |nodes| == |history| + 1 && nodes[0] == headEntry
      // the list is the original entries minus the calls and returns on the stack:
      && InRange(h, stack) && Distinct(stack) && |stack| <= |h|
      && Holds(nodes, LinksAfter(h, history, stack))
      && |calls| == |stack| && CallsInv(model, calls, nodes, h, history, stack)
      && CursorInv(entry, pos, nodes, history, stack)
      && state == StateAfter(model, h, model.init, stack)
      && |h| <= 64 * linearized.Length && Members(linearized[..]) == Elems(stack)
      && ValidCache(cache, bitsets, linearized.Length) && Within(cache, bitsets) && linearized !in bitsets
      && |longest| == |h|
      && SearchInv(model, h, computePartial, stack, pos, Configs(cache, bitsets), longest)
    }

    /** Where the search is, in the terms of SearchRun.dfy. */
    ghost function Here(): Spot<S>
      requires Within(cache, bitsets)
      reads this, bitsets
    {
      Spot(stack, pos, Configs(cache, bitsets), longest)
    }

    ghost function Left(): nat
      requires Valid()
      reads this, nodes, linearized, bitsets
    {
      Remaining(h, stack, pos)
    }

    /** The operation whose call or return is under the cursor. */
    lemma {:induction false} Cursor()
      requires Valid() && entry != null
      ensures pos < |history| && entry == nodes[pos + 1] && entry.value.Some?
      ensures 0 <= entry.id < |h| && entry.id !in Elems(stack)
      ensures entry.matching != null ==>
        && h[entry.id].call == pos && entry.value == Some(h[entry.id].input)
        && entry.matching == nodes[h[entry.id].ret + 1] && entry.matching.value == Some(h[entry.id].output)
      ensures entry.matching == null ==> h[entry.id].ret == pos
      ensures history[pos].id == entry.id && (history[pos].kind == CallEntry <==> entry.matching != null)
    {
      hide SearchInv, Mirrors, Describes, WellTimed, LinksAfter, Configs, ValidCache, EqualRespectsStep, CallsInv, Members, Holds, StateAfter, Live;
      CursorNode(nodes, h, history, Elems(stack), pos);
    }

    lemma {:induction false} OnSpot()
      requires Valid()
      ensures Within(cache, bitsets) && Here().longest == longest && Here().stack == stack && Here().pos == pos
      ensures |stack| == |calls|
      ensures entry != null ==> pos < |history| && (history[pos].kind == CallEntry <==> entry.matching != null)
    {
      hide SearchInv, Mirrors, Describes, WellTimed, LinksAfter, ValidCache, EqualRespectsStep, CallsInv, Members, Holds, StateAfter, Live;
      if entry != null {
        Cursor();
      }
    }

    /** checker.go:204 and 207: on to the next entry. */
    method StepOver(ghost x: nat)
      requires Valid() && entry != null && entry.matching != null && entry.id == x < |h|
      requires StepOk(model, h, state, x) ==>
        Explored(model, h, Elems(stack) + {x}, StepState(model, h, state, x), longest, computePartial)
      modifies this`entry, this`pos
      ensures Valid() && Left() < old(Left())
      ensures Skips(history, old(Here()), Here())
    {
      hide SearchInv, Mirrors, Describes, WellTimed, LinksAfter, Configs, ValidCache, EqualRespectsStep, CallsInv, Members, Explored, Holds, Linked, Remaining, StateAfter;
      Cursor();
      ghost var pos' := NextNode(h, history, Elems(stack), LinksAfter(h, history, stack), x);
      SearchSkip(model, h, computePartial, stack, pos, Configs(cache, bitsets), longest, x, pos');
      SkipProgress(h, stack, pos, pos');
      NextField(nodes, LinksAfter(h, history, stack), pos + 1);
      entry := entry.next;
      pos := pos';
    }

    /** What the state will be once `x`, under the cursor, is on the stack. */
    lemma {:induction false} PushPlan(x: nat, newState: S) returns (pos': nat)
      requires Valid() && entry != null && entry.matching != null && entry.id == x < |h|
      requires StepOk(model, h, state, x) && newState == StepState(model, h, state, x)
      ensures x !in Elems(stack) && entry == At(nodes, h[x].call + 1)
      ensures var stack' := stack + [x];
        && InRange(h, stack') && Distinct(stack') && |stack'| <= |h| && Elems(stack') == Elems(stack) + {x}
        && newState == StateAfter(model, h, model.init, stack')
        && CallsInv(model, calls + [CallsEntry(entry, state)], nodes, h, history, stack')
        && CursorInv(At(nodes, pos' + 1), pos', nodes, history, stack')
        && LinksAfter(h, history, stack').next[0] == pos' + 1 && FirstOpen(history, Elems(stack'), 0, pos')
        && SearchInv(model, h, computePartial, stack', pos', Configs(cache, bitsets) + {Config(Elems(stack'), newState)}, longest)
        && Remaining(h, stack', pos') < Remaining(h, stack, pos)
    {
      hide SearchInv, Mirrors, Describes, WellTimed, LinksAfter, Configs, ValidCache, EqualRespectsStep, CallsInv, Members, Holds, StateAfter, Live, Linked, Remaining;
      Cursor();
      StackPush(h, stack, x);
      CallsPush(model, calls, nodes, h, history, stack, x);
      pos' := FirstNode(h, history, Elems(stack + [x]), LinksAfter(h, history, stack + [x]));
      SearchPush(model, h, computePartial, stack, pos, Configs(cache, bitsets), longest, x, pos');
      PushProgress(h, stack, pos, x, pos');
    }

    /** checker.go:196-197. */
    method Remember(newLinearized: array<Word>, newState: S)
      requires ValidCache(cache, bitsets, linearized.Length) && linearized !in bitsets
      requires newLinearized != linearized && newLinearized.Length == linearized.Length
      modifies `cache, `bitsets
      ensures ValidCache(cache, bitsets, linearized.Length) && Within(cache, bitsets) && linearized !in bitsets
      ensures Configs(cache, bitsets) == old(Configs(cache, bitsets)) + {Config(Members(newLinearized[..]), newState)}
    {
      hide Configs, ValidCache, Members, HashOf, Insert, Within;
      var hash := Hash(newLinearized);
      InsertConfigs(cache, hash, CacheEntry(newLinearized, newState), bitsets);
      cache := Insert(cache, hash, CacheEntry(newLinearized, newState));
      bitsets := bitsets + {newLinearized};
      CacheWithin(cache, bitsets, linearized.Length);
    }

    /** checker.go:196-202: the call under the cursor is linearized next. */
    method Push(newLinearized: array<Word>, newState: S, ghost x: nat)
      requires Valid() && entry != null && entry.matching != null && entry.id == x < |h|
      requires StepOk(model, h, state, x) && newState == StepState(model, h, state, x)
      requires newLinearized != linearized && newLinearized.Length == linearized.Length
      requires Members(newLinearized[..]) == Elems(stack) + {x}
      modifies this, linearized, nodes
      ensures Valid() && Left() < old(Left())
      ensures Pushes(model, h, history, old(Here()), x, Here())
    {
      hide SearchInv, Mirrors, Describes, WellTimed, LinksAfter, Configs, ValidCache, EqualRespectsStep, CallsInv, CursorInv, Members, Holds, StateAfter, Live, Linked, Remaining, HashOf, Insert;
      ghost var pos' := PushPlan(x, newState);
      Remember(newLinearized, newState);
      calls := calls + [CallsEntry(entry, state)];
      state := newState;
      TakeOut(linearized, entry, nodes, h, history, stack, x, cache, bitsets);
      NextField(nodes, LinksAfter(h, history, stack + [x]), 0);
      entry := headEntry.next;
      stack, pos := stack + [x], pos';
    }

    /** What the state will be once the search has backtracked. */
    lemma {:induction false} PopPlan(longest': Longest) returns (x: nat, rest: seq<nat>, pos': nat)
      requires Valid() && entry != null && entry.matching == null && stack != []
      requires longest' == if computePartial then Record(longest, stack) else longest
      ensures stack == rest + [x] && rest == stack[..|stack| - 1]
      ensures x < |h| && 0 <= h[x].call < |history| && x !in Elems(rest) && Elems(stack) - {x} == Elems(rest)
      ensures InRange(h, rest) && Distinct(rest) && |rest| == |calls| - 1
      ensures calls[|rest|] == CallsEntry(nodes[h[x].call + 1], StateAfter(model, h, model.init, rest))
      ensures calls[|rest|].entry.id == x
      ensures CallsInv(model, calls[..|rest|], nodes, h, history, rest)
      ensures CursorInv(At(nodes, pos' + 1), pos', nodes, history, rest)
      ensures LinksAfter(h, history, rest).next[h[x].call + 1] == pos' + 1
      ensures FirstOpen(history, Elems(rest), h[x].call + 1, pos')
      ensures |longest'| == |h| && SearchInv(model, h, computePartial, rest, pos', Configs(cache, bitsets), longest')
      ensures Remaining(h, rest, pos') < Remaining(h, stack, pos)
    {
      hide SearchInv, Mirrors, Describes, WellTimed, LinksAfter, Configs, ValidCache, EqualRespectsStep, CallsInv, Members, Holds, StateAfter, Live, Linked, Remaining, Record, Elems, InRange, Distinct;
      var k := |stack| - 1;
      x, rest := stack[k], stack[..k];
      Cursor();
      StackPop(h, stack);
      CallsPop(model, calls, nodes, h, history, stack);
      pos' := NextNode(h, history, Elems(rest), LinksAfter(h, history, rest), x);
      SearchPop(model, h, computePartial, stack, pos, Configs(cache, bitsets), longest, entry.id, longest', pos');
      PopProgress(h, stack, pos, pos');
    }

    lemma {:induction false} HasCursor()
      requires Valid() && headEntry.next != null
      ensures entry != null
    {
      hide SearchInv, Mirrors, Describes, WellTimed, LinksAfter, Configs, ValidCache, EqualRespectsStep, CallsInv, Members, Holds, StateAfter, Live;
      NextField(nodes, LinksAfter(h, history, stack), 0);
      var first := FirstNode(h, history, Elems(stack), LinksAfter(h, history, stack));
    }

    lemma {:induction false} Partials()
      requires Valid()
      ensures PartialsLegal(model, h, longest)
    {
      hide Mirrors, Describes, WellTimed, LinksAfter, Configs, ValidCache, EqualRespectsStep, CallsInv, CursorInv, Members, Holds, StateAfter, Live, LongestSound;
      LongestIsLegal(model, h, longest);
    }

    /** checker.go:210-212. */
    lemma {:induction false} Fails()
      requires Valid() && entry != null && entry.matching == null && |calls| == 0
      ensures !Linearizable(model, h) && PartialsLegal(model, h, longest)
      ensures computePartial ==> LongestPrefixes(model, h, longest)
    {
      hide SearchInv, Mirrors, Describes, WellTimed, LinksAfter, Configs, ValidCache, EqualRespectsStep, CallsInv, CursorInv, Members, Holds, StateAfter, Live, Linearizable, LongestPrefixes;
      Cursor();
      Partials();
      SearchFails(model, h, computePartial, pos, Configs(cache, bitsets), longest, entry.id);
    }

    /** The list is empty: the stack linearizes everything. */
    lemma {:induction false} Linearized()
      requires Valid() && headEntry.next == null
      ensures Linearization(model, h, stack) && pos == |history|
    {
      hide Mirrors, Describes, WellTimed, LinksAfter, Configs, ValidCache, EqualRespectsStep, CallsInv, Members, Holds, StateAfter, Live, Linearization;
      NextField(nodes, LinksAfter(h, history, stack), 0);
      var first := FirstNode(h, history, Elems(stack), LinksAfter(h, history, stack));
      SearchSucceeds(model, h, stack);
    }

    /** checker.go:240-247. */
    method Succeed() returns (all: Longest)
      requires Valid() && headEntry.next == null
      ensures Linearizable(model, h) && LongestPrefixes(model, h, all) && PartialsLegal(model, h, all)
      ensures pos == |history| && EveryoneGets(all, |h|, stack)
    {
      hide SearchInv, Mirrors, Describes, WellTimed, LinksAfter, Configs, ValidCache, EqualRespectsStep, CallsInv, CursorInv, Members, Holds, StateAfter, Live, Linearization, LongestPrefixes, PartialsLegal;
      Linearized();
      CallIds(model, calls, nodes, h, history, stack);
      var ids: seq<nat> := [];
      for j := 0 to |calls|
        invariant ids == stack[..j]
      {
        ids := ids + [calls[j].entry.id];
      }
      assert ids == stack;
      all := seq(|longest|, _ => Some(ids));
      FullIsLongest(model, h, stack, all);
      LongestArePartials(model, h, all);
    }

    /** A hit in the cache: the call under the cursor leads nowhere new. */
    lemma {:induction false} HitExplored(x: nat, newState: S, c: Config<S>)
      requires Valid() && entry != null && entry.matching != null && entry.id == x < |h|
      requires StepOk(model, h, state, x) && newState == StepState(model, h, state, x)
      requires c in Configs(cache, bitsets) && c.done == Elems(stack) + {x} && model.equal(newState, c.state)
      ensures Explored(model, h, Elems(stack) + {x}, newState, longest, computePartial)
    {
      hide SearchInv, Mirrors, Describes, WellTimed, LinksAfter, Configs, ValidCache, EqualRespectsStep, CallsInv, CursorInv, Members, Holds, StateAfter, Live, Linked, Explored;
      Cursor();
      CacheHitExplored(model, h, computePartial, stack, pos, Configs(cache, bitsets), longest, x, c);
    }

    /** checker.go:190-208: try the call under the cursor. */
    method TryCall()
      requires Valid() && entry != null && entry.matching != null
      modifies this, linearized, nodes
      ensures Valid() && Left() < old(Left())
      ensures Within(cache, bitsets) && Moves(model, h, history, computePartial, old(Here()), Here())
    {
      hide SearchInv, Mirrors, Describes, WellTimed, LinksAfter, Configs, EqualRespectsStep, CallsInv, CursorInv, Members, Holds, StateAfter, Live, Linked, Explored, Remaining;
      Cursor();
      ghost var x: nat := entry.id;
      var matching := entry.matching;
      var (ok, newState) := model.step(state, entry.value.value, matching.value.value);
      if ok {
        var newLinearized := Clone(linearized);
        Set(newLinearized, entry.id);
        var hit := CacheContains(model, cache, CacheEntry(newLinearized, newState), bitsets);
        if !hit {
          Push(newLinearized, newState, x);
        } else {
          ghost var c :| c in Configs(cache, bitsets) && c.done == Elems(stack) + {x} && model.equal(newState, c.state);
          HitExplored(x, newState, c);
          StepOver(x);
        }
      } else {
        StepOver(x);
      }
    }

    /** checker.go:213-229. */
    method RecordStack() returns (recorded: Longest)
      requires Valid()
      ensures recorded == if computePartial then Record(longest, stack) else longest
    {
      hide SearchInv, Mirrors, Describes, WellTimed, LinksAfter, Configs, ValidCache, EqualRespectsStep, CallsInv, CursorInv, Members, Holds, StateAfter, Live, Linked, Record;
      recorded := longest;
      if computePartial {
        CallIds(model, calls, nodes, h, history, stack);
        recorded := UpdateLongest(calls, longest, stack);
      }
    }

    /** checker.go:230-236: undo the top of the stack and go on behind it. */
    method Backtrack(recorded: Longest)
      requires Valid() && entry != null && entry.matching == null && |calls| > 0
      requires recorded == if computePartial then Record(longest, stack) else longest
      modifies this, linearized, nodes
      ensures Valid() && Left() < old(Left())
      ensures Pops(h, history, computePartial, old(Here()), Here())
    {
      hide SearchInv, Mirrors, Describes, WellTimed, LinksAfter, Configs, ValidCache, EqualRespectsStep, CallsInv, CursorInv, Members, Holds, StateAfter, Live, Linked, Remaining, HashOf, Record, Elems, InRange, Distinct, Within, FirstOpen, Pops;
      ghost var from := Here();
      ghost var x, rest, pos' := PopPlan(recorded);
      longest := recorded;
      var callsTop := calls[|calls| - 1];
      entry := callsTop.entry;
      state := callsTop.state;
      calls := calls[..|calls| - 1];
      PutBack(linearized, entry, nodes, h, history, rest, x, cache, bitsets);
      NextField(nodes, LinksAfter(h, history, rest), h[x].call + 1);
      entry := entry.next;
      stack, pos := rest, pos';
      PopsAgain(h, history, computePartial, from, Here(), x, recorded);
    }

    /** checker.go:210-237: the cursor is on a return. */
    method GoBack()
      requires Valid() && entry != null && entry.matching == null && |calls| > 0
      modifies this, linearized, nodes
      ensures Valid() && Left() < old(Left())
      ensures Within(cache, bitsets) && Moves(model, h, history, computePartial, old(Here()), Here())
    {
      hide SearchInv, Mirrors, Describes, WellTimed, LinksAfter, Configs, EqualRespectsStep, CallsInv, CursorInv, Members, Holds, StateAfter, Live, Linked, Remaining, Record, Pops, ValidCache;
      Cursor();
      var recorded := RecordStack();
      Backtrack(recorded);
    }
  }

  /** checker.go:214-229: every operation on the stack gets the stack as its longest prefix, if
      that is longer than what it has. */
  method UpdateLongest<S, V>(calls: seq<CallsEntry<S, V>>, longest: Longest, ghost stack: seq<nat>) returns (longest': Longest)
    requires |calls| == |stack|
    requires forall j | 0 <= j < |stack| :: calls[j].entry.id == stack[j] < |longest|
    ensures longest' == Record(longest, stack)
  {
    longest' := longest;
    var ids: seq<nat> := [];
    for j := 0 to |calls|
      invariant ids == stack[..j]
    {
      ids := ids + [calls[j].entry.id];
    }
    assert ids == stack;
    for j := 0 to |calls|
      invariant longest' == RecordFor(longest, stack[..j], stack)
    {
      var id := calls[j].entry.id;
      if longest'[id].None? || |calls| > |longest'[id].value| {
        longest' := longest'[id := Some(ids)];
      }
      assert stack[..j + 1] == stack[..j] + [stack[j]];
      assert forall i | 0 <= i < |longest| && i != id :: i in stack[..j + 1] <==> i in stack[..j];
      assert forall i | 0 <= i < |longest| :: longest'[i] == RecordFor(longest, stack[..j + 1], stack)[i];
    }
    assert stack[..|stack|] == stack;
  }

  /** What a run reports for each operation is a legal prefix that contains it. */
  ghost predicate PartialsLegal<S, V>(m: Model<S, V>, h: History<V>, longest: Longest) {
    && |longest| == |h|
    && forall i | 0 <= i < |longest| && longest[i].Some? ::
         i in longest[i].value && LegalPrefix(m, h, longest[i].value)
  }

  lemma {:induction false} LongestArePartials<S, V>(m: Model<S, V>, h: History<V>, longest: Longest)
    requires LongestPrefixes(m, h, longest)
    ensures PartialsLegal(m, h, longest)
  {
  }

  lemma {:induction false} LongestIsLegal<S, V>(m: Model<S, V>, h: History<V>, longest: Longest)
    requires WellTimed(h) && LongestSound(m, h, longest)
    ensures PartialsLegal(m, h, longest)
  {
    forall i | 0 <= i < |longest| && longest[i].Some? ensures LegalPrefix(m, h, longest[i].value) {
      LegalFromIsLegalPrefix(m, h, longest[i].value);
    }
  }

  /** A run of the search has recorded this at some point. */
  ghost predicate Reached<S(!new), V>(m: Model<S, V>, h: History<V>, es: seq<Entry<V>>, computePartial: bool, longest: Longest) {
    exists t: seq<Spot<S>> :: Chain(m, h, es, computePartial, t) && longest == t[|t| - 1].longest
  }

  /** What checkSingle promises about its results: a run that is not killed decides
      linearizability and reports longest prefixes; any run reports legal prefixes only, and one
      that is killed what it had recorded by then. */
  ghost predicate Report<S(!new), V(!new)>(
    m: Model<S, V>, es: seq<Entry<V>>, computePartial: bool, ok: bool, longest: Longest, killed: bool)
    requires WellFormed(es)
  {
    var h := HistoryOf(es);
    && (!killed ==> (ok <==> Linearizable(m, h)))
    && (!killed && (computePartial || ok) ==> LongestPrefixes(m, h, longest))
    && PartialsLegal(m, h, longest)
    && (killed ==> !ok && Reached(m, h, es, computePartial, longest))
    && (!computePartial && !ok ==> longest == seq(|h|, _ => None))
  }

  /** How a run went: the kill flag was down at every iteration of `t`, and the run ended on the
      last spot of `t` in one of the three ways that there are. */
  ghost predicate Ran<S, V>(
    m: Model<S, V>, h: History<V>, es: seq<Entry<V>>, computePartial: bool, kill: nat -> bool,
    ok: bool, longest: Longest, killed: bool, t: seq<Spot<S>>)
  {
    && Chain(m, h, es, computePartial, t)
    && var n := |t| - 1;
      && (forall i | 0 <= i < n :: !kill(i))
      && if killed then !ok && kill(n) && t[n].pos < |es| && longest == t[n].longest
         else if ok then t[n].pos == |es| && EveryoneGets(longest, |h|, t[n].stack)
         else !kill(n) && EmptyHanded(es, t[n]) && longest == t[n].longest
  }

  /** The first entry that is left is a return, and there is nothing to backtrack from. */
  ghost predicate EmptyHanded<S, V>(es: seq<Entry<V>>, a: Spot<S>) {
    a.stack == [] && a.pos < |es| && es[a.pos].kind == ReturnEntry
  }

  /** checker.go:174-248.  `kill(i)` is what the i-th load of the kill flag returns.  A run that
      is not killed decides linearizability; one that is killed at load n reports what a run of n
      iterations has recorded. */
  method CheckSingle<S(!new), V(!new)>(model: Model<S, V>, history: seq<Entry<V>>, computePartial: bool, kill: nat -> bool)
    returns (ok: bool, longest: Longest, ghost killed: bool, ghost trail: seq<Spot<S>>)
    requires WellFormed(history) && EqualRespectsStep(model)
    ensures !killed ==> (ok <==> Linearizable(model, HistoryOf(history)))
    ensures ok ==> Linearizable(model, HistoryOf(history))
    ensures (forall i :: !kill(i)) ==> (ok <==> Linearizable(model, HistoryOf(history)))
    ensures PartialsLegal(model, HistoryOf(history), longest)
    ensures Report(model, history, computePartial, ok, longest, killed)
    ensures Ran(model, HistoryOf(history), history, computePartial, kill, ok, longest, killed, trail)
  {
    hide Searcher.Valid, Searcher.Left, Searcher.Here, Describes, EqualRespectsStep, Linearizable, LongestPrefixes, PartialsLegal,
      Chain, Moves, Skips, Pushes, Pops;
    var s := new Searcher(model, history, computePartial);
    var loads := 0;
    trail := [s.Here()];
    ChainStart(model, s.h, history, computePartial, s.Here());
    while s.headEntry.next != null
      invariant s.Valid() && fresh(s) && fresh(s.linearized) && forall k | 0 <= k < |s.nodes| :: fresh(s.nodes[k])
      invariant |trail| == loads + 1 && forall i | 0 <= i < loads :: !kill(i)
      invariant Within(s.cache, s.bitsets) && trail[loads] == s.Here()
      invariant Chain(model, s.h, history, computePartial, trail)
      decreases s.Left()
    {
      s.HasCursor();
      s.OnSpot();
      if kill(loads) {
        s.Partials();
        Recorded(model, s.h, history, computePartial, trail);
        return false, s.longest, true, trail;
      }
      loads := loads + 1;
      if s.entry.matching != null {
        s.TryCall();
      } else {
        if |s.calls| == 0 {
          s.Fails();
          Recorded(model, s.h, history, computePartial, trail);
          return false, s.longest, false, trail;
        }
        s.GoBack();
      }
      ChainOn(model, s.h, history, computePartial, trail, s.Here());
      trail := trail + [s.Here()];
    }
    s.OnSpot();
    longest := s.Succeed();
    return true, longest, false, trail;
  }

  lemma {:induction false} Recorded<S(!new), V>(m: Model<S, V>, h: History<V>, es: seq<Entry<V>>, computePartial: bool, t: seq<Spot<S>>)
    requires |t| > 0 && Chain(m, h, es, computePartial, t)
    ensures Reached(m, h, es, computePartial, t[|t| - 1].longest)
    ensures !computePartial ==> t[|t| - 1].longest == seq(|h|, _ => None)
  {
    hide Chain;
    if !computePartial {
      NothingRecorded(m, h, es, t, |t| - 1);
    }
  }

  lemma {:induction false} ReachedExactly<S(!new), V>(m: Model<S, V>, h: History<V>, es: seq<Entry<V>>, longest: Longest)
    returns (t: seq<Spot<S>>)
    requires Reached(m, h, es, true, longest)
    ensures |t| > 0 && Chain(m, h, es, true, t) && |longest| == |h|
    ensures forall k: nat | k < |h| :: FirstLongest(es, t, |t| - 1, k, longest[k])
  {
    hide Moves, FirstLongest;
    t :| Chain(m, h, es, true, t) && longest == t[|t| - 1].longest;
    ChainLength(m, h, es, t);
    forall k: nat | k < |h| ensures FirstLongest(es, t, |t| - 1, k, longest[k]) {
      RecordedExactly(m, h, es, t, |t| - 1, k);
    }
  }
}
