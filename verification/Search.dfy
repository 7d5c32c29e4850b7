/** The depth-first search of porcupine/checker.go on values: a stack of linearized operations,
    the position of the cursor in the entry list, the configurations cached so far, and the
    longest legal prefix recorded for each operation.  `SearchInv` is what every iteration of
    the loop keeps; the imperative search in CheckSingle.dfy refines it. */
module Search {
  import opened Linearizability

  datatype Config<S> = Config(done: set<nat>, state: S)

  type Longest = seq<Option<seq<nat>>>

  /** Positions of a well-formed entry list: each operation's call is before its return, and no
      two entries share a position. */
  ghost predicate WellTimed<V>(h: History<V>) {
    && (forall x | 0 <= x < |h| :: 0 <= h[x].call < h[x].ret < 2 * |h|)
    && (forall x, y | 0 <= x < |h| && 0 <= y < |h| :: h[x].call != h[y].ret)
    && (forall x, y | 0 <= x < y < |h| :: h[x].call != h[y].call && h[x].ret != h[y].ret)
  }

  ghost predicate Covers(longest: Longest, i: nat, len: nat) {
    i < |longest| && longest[i].Some? && |longest[i].value| >= len
  }

  /** Going on with `e` after `done` leaves operations out, and, when partial results are
      collected, the recorded prefixes are as long for every operation involved. */
  ghost predicate FallsShort<V>(h: History<V>, done: set<nat>, e: seq<nat>, longest: Longest, partial: bool) {
    && |done| + |e| < |h|
    && (partial ==> forall i | i in done || i in e :: Covers(longest, i, |done| + |e|))
  }

  /** No continuation of the configuration is worth another visit. */
  ghost predicate Explored<S, V>(m: Model<S, V>, h: History<V>, done: set<nat>, s: S, longest: Longest, partial: bool) {
    forall e | LegalFrom(m, h, done, s, e) :: FallsShort(h, done, e, longest, partial)
  }

  /** Every way on from the configuration that is called before position `bound` is explored. */
  ghost predicate ChildrenExplored<S, V>(
    m: Model<S, V>, h: History<V>, done: set<nat>, s: S, bound: int, longest: Longest, partial: bool)
  {
    forall x: nat | Ready(h, done, x) && h[x].call < bound && StepOk(m, h, s, x) ::
      Explored(m, h, done + {x}, StepState(m, h, s, x), longest, partial)
  }

  /** The configuration is one of those on the current stack. */
  ghost predicate OnPath<S, V>(m: Model<S, V>, h: History<V>, stack: seq<nat>, c: Config<S>)
    requires InRange(h, stack)
  {
    exists j | 1 <= j <= |stack| ::
      c == Config(Elems(stack[..j]), StateAfter(m, h, m.init, stack[..j]))
  }

  ghost predicate CacheSound<S, V>(
    m: Model<S, V>, h: History<V>, stack: seq<nat>, cached: set<Config<S>>, longest: Longest, partial: bool)
    requires InRange(h, stack)
  {
    forall c | c in cached :: OnPath(m, h, stack, c) || Explored(m, h, c.done, c.state, longest, partial)
  }

  ghost predicate LongestSound<S, V>(m: Model<S, V>, h: History<V>, longest: Longest) {
    && |longest| == |h|
    && forall i | 0 <= i < |longest| && longest[i].Some? ::
         i in longest[i].value && LegalFrom(m, h, {}, m.init, longest[i].value)
  }

  ghost predicate PathExplored<S, V>(
    m: Model<S, V>, h: History<V>, stack: seq<nat>, longest: Longest, partial: bool)
    requires InRange(h, stack)
  {
    forall j | 0 <= j < |stack| ::
      ChildrenExplored(m, h, Elems(stack[..j]), StateAfter(m, h, m.init, stack[..j]), h[stack[j]].call, longest, partial)
  }

  ghost predicate SearchInv<S, V>(
    m: Model<S, V>, h: History<V>, partial: bool,
    stack: seq<nat>, pos: nat, cached: set<Config<S>>, longest: Longest)
  {
    && LegalFrom(m, h, {}, m.init, stack)
    && (forall y: nat | y < |h| && y !in Elems(stack) :: h[y].ret >= pos)
    && CacheSound(m, h, stack, cached, longest, partial)
    && ChildrenExplored(m, h, Elems(stack), StateAfter(m, h, m.init, stack), pos, longest, partial)
    && PathExplored(m, h, stack, longest, partial)
    && LongestSound(m, h, longest)
  }

  /** No operation outside `done` has its call or its return in `[lo, hi)`. */
  ghost predicate Gap<V>(h: History<V>, done: set<nat>, lo: int, hi: int) {
    forall y: nat | y < |h| && y !in done :: !(lo <= h[y].call < hi) && !(lo <= h[y].ret < hi)
  }

  lemma {:induction false} SearchStart<S, V>(m: Model<S, V>, h: History<V>, partial: bool, pos: nat, longest: Longest)
    requires Gap(h, {}, 0, pos) && WellTimed(h)
    requires |longest| == |h| && forall i | 0 <= i < |longest| :: longest[i].None?
    ensures SearchInv(m, h, partial, [], pos, {}, longest)
  {
    assert Elems([]) == {};
  }

  /** The operation under the cursor can be linearized next: all entries before it are calls. */
  lemma {:induction false} CursorReady<S, V>(m: Model<S, V>, h: History<V>, partial: bool, stack: seq<nat>, pos: nat, cached: set<Config<S>>, longest: Longest, x: nat)
    requires WellTimed(h) && SearchInv(m, h, partial, stack, pos, cached, longest)
    requires x < |h| && x !in Elems(stack) && h[x].call == pos
    ensures Ready(h, Elems(stack), x)
  {
  }

  /** Moving on from a call that is refused by the specification or leads nowhere new. */
  lemma {:induction false} SearchSkip<S, V>(m: Model<S, V>, h: History<V>, partial: bool, stack: seq<nat>, pos: nat, cached: set<Config<S>>, longest: Longest, x: nat, pos': nat)
    requires WellTimed(h) && SearchInv(m, h, partial, stack, pos, cached, longest)
    requires x < |h| && x !in Elems(stack) && h[x].call == pos
    requires var s := StateAfter(m, h, m.init, stack);
      StepOk(m, h, s, x) ==> Explored(m, h, Elems(stack) + {x}, StepState(m, h, s, x), longest, partial)
    requires Gap(h, Elems(stack), pos + 1, pos')
    ensures SearchInv(m, h, partial, stack, pos', cached, longest)
  {
    ChildrenAdvance(m, h, Elems(stack), StateAfter(m, h, m.init, stack), x, pos', longest, partial);
  }

  /** Pruning loses nothing.  A cached configuration with one operation more than the stack
      cannot be on the stack, so its whole subtree has been searched. */
  lemma {:induction false} CacheHitExplored<S(!new), V(!new)>(m: Model<S, V>, h: History<V>, partial: bool, stack: seq<nat>, pos: nat, cached: set<Config<S>>, longest: Longest, x: nat, c: Config<S>)
    requires EqualRespectsStep(m) && SearchInv(m, h, partial, stack, pos, cached, longest)
    requires x < |h| && x !in Elems(stack)
    requires c in cached && c.done == Elems(stack) + {x}
    requires m.equal(StepState(m, h, StateAfter(m, h, m.init, stack), x), c.state)
    ensures Explored(m, h, Elems(stack) + {x}, StepState(m, h, StateAfter(m, h, m.init, stack), x), longest, partial)
  {
    LegalFromDistinct(m, h, {}, m.init, stack);
    DistinctSize(stack);
    forall j | 1 <= j <= |stack| ensures Elems(stack[..j]) != c.done {
      DistinctSize(stack[..j]);
    }
    var s := StepState(m, h, StateAfter(m, h, m.init, stack), x);
    forall e | LegalFrom(m, h, c.done, s, e) ensures LegalFrom(m, h, c.done, c.state, e) {
      EqualStatesSameFuture(m, h, c.done, s, c.state, e);
    }
  }

  lemma {:induction false} SearchPush<S, V>(m: Model<S, V>, h: History<V>, partial: bool, stack: seq<nat>, pos: nat, cached: set<Config<S>>, longest: Longest, x: nat, pos': nat)
    requires WellTimed(h) && SearchInv(m, h, partial, stack, pos, cached, longest)
    requires x < |h| && x !in Elems(stack) && h[x].call == pos
    requires StepOk(m, h, StateAfter(m, h, m.init, stack), x)
    requires Gap(h, Elems(stack) + {x}, 0, pos')
    ensures
      var c := Config(Elems(stack) + {x}, StepState(m, h, StateAfter(m, h, m.init, stack), x));
      && SearchInv(m, h, partial, stack + [x], pos', cached + {c}, longest)
      && c == Config(Elems(stack + [x]), StateAfter(m, h, m.init, stack + [x]))
  {
    CursorReady(m, h, partial, stack, pos, cached, longest, x);
    assert {} + Elems(stack) == Elems(stack);
    LegalFromAppend(m, h, {}, m.init, stack, x);
    ElemsAppend(stack, x);
    PushKeepsCache(m, h, partial, stack, cached, longest, x);
    PushKeepsPath(m, h, partial, stack, longest, x);
  }

  lemma {:induction false} PushKeepsCache<S, V>(m: Model<S, V>, h: History<V>, partial: bool, stack: seq<nat>, cached: set<Config<S>>, longest: Longest, x: nat)
    requires InRange(h, stack + [x]) && InRange(h, stack) && CacheSound(m, h, stack, cached, longest, partial)
    ensures CacheSound(m, h, stack + [x], cached + {Config(Elems(stack + [x]), StateAfter(m, h, m.init, stack + [x]))}, longest, partial)
  {
    var stack' := stack + [x];
    var c := Config(Elems(stack'), StateAfter(m, h, m.init, stack'));
    assert stack'[..|stack'|] == stack';
    assert OnPath(m, h, stack', c);
    forall d | d in cached && OnPath(m, h, stack, d) ensures OnPath(m, h, stack', d) {
      var j :| 1 <= j <= |stack| && d == Config(Elems(stack[..j]), StateAfter(m, h, m.init, stack[..j]));
      assert stack'[..j] == stack[..j];
    }
  }

  lemma {:induction false} PushKeepsPath<S, V>(m: Model<S, V>, h: History<V>, partial: bool, stack: seq<nat>, longest: Longest, x: nat)
    requires InRange(h, stack + [x]) && InRange(h, stack) && x < |h| && PathExplored(m, h, stack, longest, partial)
    requires ChildrenExplored(m, h, Elems(stack), StateAfter(m, h, m.init, stack), h[x].call, longest, partial)
    ensures PathExplored(m, h, stack + [x], longest, partial)
  {
    var stack' := stack + [x];
    forall j | 0 <= j < |stack'|
      ensures ChildrenExplored(m, h, Elems(stack'[..j]), StateAfter(m, h, m.init, stack'[..j]), h[stack'[j]].call, longest, partial)
    {
      assert stack'[..j] == stack[..j];
      if j == |stack| { assert stack'[..j] == stack; }
    }
  }

  /** Entries for the operations in `ids` become `stack` where that is longer. */
  function RecordFor(longest: Longest, ids: seq<nat>, stack: seq<nat>): (r: Longest)
    ensures |r| == |longest|
  {
    seq(|longest|, i requires 0 <= i < |longest| =>
      if i in ids && (longest[i].None? || |stack| > |longest[i].value|) then Some(stack) else longest[i])
  }

  /** What is recorded when the search backtracks from `stack`. */
  function Record(longest: Longest, stack: seq<nat>): (r: Longest)
    ensures |r| == |longest|
  {
    RecordFor(longest, stack, stack)
  }

  ghost predicate NoWorse(longest: Longest, longest': Longest) {
    forall i: nat, len: nat | Covers(longest, i, len) :: Covers(longest', i, len)
  }

  lemma {:induction false} RecordNoWorse(longest: Longest, stack: seq<nat>)
    ensures NoWorse(longest, Record(longest, stack))
    ensures forall i: nat | i < |longest| && i in stack :: Covers(Record(longest, stack), i, |stack|)
  {
  }

  lemma {:induction false} ExploredMonotone<S, V>(m: Model<S, V>, h: History<V>, done: set<nat>, s: S, longest: Longest, longest': Longest, partial: bool)
    requires Explored(m, h, done, s, longest, partial)
    requires partial ==> NoWorse(longest, longest')
    ensures Explored(m, h, done, s, longest', partial)
  {
  }

  lemma {:induction false} ChildrenMonotone<S, V>(m: Model<S, V>, h: History<V>, done: set<nat>, s: S, bound: int, longest: Longest, longest': Longest, partial: bool)
    requires ChildrenExplored(m, h, done, s, bound, longest, partial)
    requires partial ==> NoWorse(longest, longest')
    ensures ChildrenExplored(m, h, done, s, bound, longest', partial)
  {
    forall x: nat | Ready(h, done, x) && h[x].call < bound && StepOk(m, h, s, x)
      ensures Explored(m, h, done + {x}, StepState(m, h, s, x), longest', partial)
    {
      ExploredMonotone(m, h, done + {x}, StepState(m, h, s, x), longest, longest', partial);
    }
  }

  /** A continuation begins with an operation that `y` does not precede, so one of the children
      that have been explored. */
  lemma {:induction false} ContinuationFallsShort<S, V>(m: Model<S, V>, h: History<V>, done: set<nat>, s: S, y: nat, longest: Longest, partial: bool, e: seq<nat>)
    requires WellTimed(h) && y < |h| && y !in done && |done| < |h|
    requires ChildrenExplored(m, h, done, s, h[y].ret, longest, partial)
    requires partial ==> forall i | i in done :: Covers(longest, i, |done|)
    requires LegalFrom(m, h, done, s, e)
    ensures FallsShort(h, done, e, longest, partial)
  {
    hide Covers;
    if e != [] {
      assert !Precedes(h, y, e[0]);
      assert Explored(m, h, done + {e[0]}, StepState(m, h, s, e[0]), longest, partial);
      FallsShortCons(h, done, e, longest, partial);
    }
  }

  /** With the cursor on a return, nothing after it can come next: the configuration on top of
      the stack is finished. */
  lemma {:induction false} ExhaustedIsExplored<S, V>(m: Model<S, V>, h: History<V>, partial: bool, stack: seq<nat>, pos: nat, cached: set<Config<S>>, longest: Longest, y: nat, longest': Longest)
    requires WellTimed(h) && SearchInv(m, h, partial, stack, pos, cached, longest)
    requires y < |h| && y !in Elems(stack) && h[y].ret == pos
    requires partial ==> NoWorse(longest, longest')
    requires partial ==> forall i | i in stack :: Covers(longest', i, |stack|)
    ensures Explored(m, h, Elems(stack), StateAfter(m, h, m.init, stack), longest', partial)
  {
    hide WellTimed, CacheSound, PathExplored, ChildrenExplored, LongestSound, FallsShort, NoWorse, Covers, LegalFrom, StateAfter;
    var done, s := Elems(stack), StateAfter(m, h, m.init, stack);
    LegalFromDistinct(m, h, {}, m.init, stack);
    DistinctSize(stack);
    FullSet(done, |h|);
    ChildrenMonotone(m, h, done, s, pos, longest, longest', partial);
    forall e | LegalFrom(m, h, done, s, e) ensures FallsShort(h, done, e, longest', partial) {
      ContinuationFallsShort(m, h, done, s, y, longest', partial, e);
    }
  }

  lemma {:induction false} FallsShortCons<V>(h: History<V>, done: set<nat>, e: seq<nat>, longest: Longest, partial: bool)
    requires e != [] && e[0] !in done
    requires FallsShort(h, done + {e[0]}, e[1..], longest, partial)
    ensures FallsShort(h, done, e, longest, partial)
  {
    assert forall i | i in e :: i == e[0] || i in e[1..];
  }

  /** The same, once the stack has been recorded. */
  lemma {:induction false} StackExplored<S, V>(m: Model<S, V>, h: History<V>, partial: bool, stack: seq<nat>, pos: nat, cached: set<Config<S>>, longest: Longest, y: nat, longest': Longest)
    requires WellTimed(h) && SearchInv(m, h, partial, stack, pos, cached, longest)
    requires y < |h| && y !in Elems(stack) && h[y].ret == pos
    requires longest' == if partial then Record(longest, stack) else longest
    ensures Explored(m, h, Elems(stack), StateAfter(m, h, m.init, stack), longest', partial)
  {
    hide WellTimed, CacheSound, PathExplored, ChildrenExplored, Explored, LegalFrom, StateAfter, NoWorse;
    RecordNoWorse(longest, stack);
    ExhaustedIsExplored(m, h, partial, stack, pos, cached, longest, y, longest');
  }

  lemma {:induction false} SearchPop<S, V>(m: Model<S, V>, h: History<V>, partial: bool, stack: seq<nat>, pos: nat, cached: set<Config<S>>, longest: Longest, y: nat, longest': Longest, pos': nat)
    requires WellTimed(h) && SearchInv(m, h, partial, stack, pos, cached, longest)
    requires y < |h| && y !in Elems(stack) && h[y].ret == pos
    requires stack != []
    requires longest' == if partial then Record(longest, stack) else longest
    requires var k := |stack| - 1; Gap(h, Elems(stack[..k]), h[stack[k]].call + 1, pos')
    ensures SearchInv(m, h, partial, stack[..|stack| - 1], pos', cached, longest')
  {
    hide CacheSound, PathExplored, ChildrenExplored, LongestSound, Explored, LegalFrom, StateAfter, Record, StepOk;
    var k := |stack| - 1;
    var x, rest := stack[k], stack[..k];
    var done, s := Elems(rest), StateAfter(m, h, m.init, rest);
    StackExplored(m, h, partial, stack, pos, cached, longest, y, longest');
    assert LegalFrom(m, h, {}, m.init, rest) && Ready(h, done, x)
        && Elems(stack) == done + {x} && StateAfter(m, h, m.init, stack) == StepState(m, h, s, x) by {
      LegalFromPrefix(m, h, {}, m.init, stack, k);
      assert {} + Elems(rest) == Elems(rest);
      assert stack == rest + [x] == stack[..k + 1];
      ElemsAppend(rest, x);
    }
    RecordNoWorse(longest, stack);
    PopKeepsCache(m, h, partial, stack, cached, longest, longest');
    PopKeepsPath(m, h, partial, stack, longest, longest', pos');
    RecordSound(m, h, longest, stack);
    forall z: nat | z < |h| && z !in done ensures h[z].ret >= pos' {
      assert !Precedes(h, z, x);
    }
  }

  lemma {:induction false} RecordSound<S, V>(m: Model<S, V>, h: History<V>, longest: Longest, stack: seq<nat>)
    requires LongestSound(m, h, longest) && LegalFrom(m, h, {}, m.init, stack)
    ensures LongestSound(m, h, Record(longest, stack))
  {
  }

  lemma {:induction false} PopKeepsCache<S, V>(m: Model<S, V>, h: History<V>, partial: bool, stack: seq<nat>, cached: set<Config<S>>, longest: Longest, longest': Longest)
    requires stack != [] && InRange(h, stack) && CacheSound(m, h, stack, cached, longest, partial)
    requires partial ==> NoWorse(longest, longest')
    requires Explored(m, h, Elems(stack), StateAfter(m, h, m.init, stack), longest', partial)
    ensures CacheSound(m, h, stack[..|stack| - 1], cached, longest', partial)
  {
    var rest := stack[..|stack| - 1];
    forall c | c in cached
      ensures OnPath(m, h, rest, c) || Explored(m, h, c.done, c.state, longest', partial)
    {
      if OnPath(m, h, stack, c) {
        var j :| 1 <= j <= |stack| && c == Config(Elems(stack[..j]), StateAfter(m, h, m.init, stack[..j]));
        if j == |stack| {
          assert stack[..j] == stack;
        } else {
          assert stack[..j] == rest[..j];
        }
      } else {
        ExploredMonotone(m, h, c.done, c.state, longest, longest', partial);
      }
    }
  }

  lemma {:induction false} PopKeepsPath<S, V>(m: Model<S, V>, h: History<V>, partial: bool, stack: seq<nat>, longest: Longest, longest': Longest, pos': nat)
    requires WellTimed(h)
    requires stack != [] && InRange(h, stack) && PathExplored(m, h, stack, longest, partial)
    requires partial ==> NoWorse(longest, longest')
    requires var k := |stack| - 1;
      && Explored(m, h, Elems(stack[..k]) + {stack[k]}, StepState(m, h, StateAfter(m, h, m.init, stack[..k]), stack[k]), longest', partial)
      && Gap(h, Elems(stack[..k]), h[stack[k]].call + 1, pos')
    ensures var rest := stack[..|stack| - 1];
      && PathExplored(m, h, rest, longest', partial)
      && ChildrenExplored(m, h, Elems(rest), StateAfter(m, h, m.init, rest), pos', longest', partial)
  {
    var k := |stack| - 1;
    var x, rest := stack[k], stack[..k];
    forall j | 0 <= j < k
      ensures ChildrenExplored(m, h, Elems(rest[..j]), StateAfter(m, h, m.init, rest[..j]), h[rest[j]].call, longest', partial)
    {
      assert rest[..j] == stack[..j];
      ChildrenMonotone(m, h, Elems(stack[..j]), StateAfter(m, h, m.init, stack[..j]), h[stack[j]].call, longest, longest', partial);
    }
    var done, s := Elems(rest), StateAfter(m, h, m.init, rest);
    ChildrenMonotone(m, h, done, s, h[x].call, longest, longest', partial);
    ChildrenAdvance(m, h, done, s, x, pos', longest', partial);
  }

  lemma {:induction false} ChildrenAdvance<S, V>(m: Model<S, V>, h: History<V>, done: set<nat>, s: S, x: nat, pos: int, longest: Longest, partial: bool)
    requires WellTimed(h) && x < |h|
    requires ChildrenExplored(m, h, done, s, h[x].call, longest, partial)
    requires StepOk(m, h, s, x) ==> Explored(m, h, done + {x}, StepState(m, h, s, x), longest, partial)
    requires Gap(h, done, h[x].call + 1, pos)
    ensures ChildrenExplored(m, h, done, s, pos, longest, partial)
  {
    forall z: nat | Ready(h, done, z) && h[z].call < pos && StepOk(m, h, s, z)
      ensures Explored(m, h, done + {z}, StepState(m, h, s, z), longest, partial)
    {
      if h[z].call >= h[x].call { assert z == x; }
    }
  }

  /** The search gives up with an empty stack and the cursor on a return: there is no
      linearization, and the recorded prefixes are the longest ones. */
  lemma {:induction false} SearchFails<S, V>(m: Model<S, V>, h: History<V>, partial: bool, pos: nat, cached: set<Config<S>>, longest: Longest, y: nat)
    requires WellTimed(h) && SearchInv(m, h, partial, [], pos, cached, longest)
    requires y < |h| && h[y].ret == pos
    ensures !Linearizable(m, h)
    ensures partial ==> LongestPrefixes(m, h, longest)
  {
    assert Elems([]) == {};
    ExhaustedIsExplored(m, h, partial, [], pos, cached, longest, y, longest);
    LinearizableBySteps(m, h);
    if partial {
      ExploredGivesLongest(m, h, longest);
    }
  }

  /** The search empties the list: the stack is a linearization. */
  lemma {:induction false} SearchSucceeds<S, V>(m: Model<S, V>, h: History<V>, stack: seq<nat>)
    requires WellTimed(h) && LegalFrom(m, h, {}, m.init, stack)
    requires forall x: nat | x < |h| :: x in Elems(stack)
    ensures Linearization(m, h, stack)
  {
    LegalFromDistinct(m, h, {}, m.init, stack);
    DistinctSize(stack);
    FullSet(Elems(stack), |h|);
    LegalFromIsLegalPrefix(m, h, stack);
    FullPrefixIsLinearization(m, h, stack);
  }

  /** `longest[i]` is nil exactly when no legal prefix contains operation `i`; otherwise it is
      a legal prefix that contains `i`, and none that does is longer. */
  ghost predicate LongestPrefixes<S, V>(m: Model<S, V>, h: History<V>, longest: Longest) {
    && |longest| == |h|
    && forall i | 0 <= i < |h| ::
         && (longest[i].None? <==> forall p | LegalPrefix(m, h, p) :: i !in p)
         && (longest[i].Some? ==>
               && i in longest[i].value
               && LegalPrefix(m, h, longest[i].value)
               && forall p | LegalPrefix(m, h, p) && i in p :: |p| <= |longest[i].value|)
  }

  lemma {:induction false} ExploredGivesLongest<S, V>(m: Model<S, V>, h: History<V>, longest: Longest)
    requires WellTimed(h) && LongestSound(m, h, longest)
    requires Explored(m, h, {}, m.init, longest, true)
    ensures LongestPrefixes(m, h, longest)
  {
    forall p | LegalPrefix(m, h, p) ensures forall i | i in p :: Covers(longest, i, |p|) {
      LegalFromIsLegalPrefix(m, h, p);
    }
    forall i | 0 <= i < |h| && longest[i].Some?
      ensures LegalPrefix(m, h, longest[i].value)
    {
      LegalFromIsLegalPrefix(m, h, longest[i].value);
    }
  }

  /** A linearization, recorded for every operation, is the longest prefix for each. */
  lemma {:induction false} FullIsLongest<S, V>(m: Model<S, V>, h: History<V>, stack: seq<nat>, longest: Longest)
    requires WellTimed(h) && Linearization(m, h, stack)
    requires |longest| == |h| && forall i | 0 <= i < |longest| :: longest[i] == Some(stack)
    ensures LongestPrefixes(m, h, longest)
  {
    FullPrefixIsLinearization(m, h, stack);
    PermutationIsOnto(stack);
    forall p | LegalPrefix(m, h, p) ensures |p| <= |stack| {
      DistinctSize(p);
      FullSet(Elems(p), |h|);
    }
  }
}
