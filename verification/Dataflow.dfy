/** mr/worker.go against main/mrsequential.go: bucketing, sorting, grouping and reducing.

    Intermediate files are a map from their names; the map, reduce and hash functions are
    parameters. */
module Dataflow {
  import opened Linearizability
  import opened Sorting

  datatype KeyValue = KeyValue(key: string, value: string)

  /** One line of output, before it is printed as `key output`. */
  datatype Line = Line(key: string, output: string)

  datatype Input = Input(name: string, content: string)

  /** The intermediate file `mr-<mapId>-<reduceId>`. */
  datatype FileName = FileName(mapId: nat, reduceId: nat)

  type MapFn = (string, string) -> seq<KeyValue>
  type ReduceFn = (string, seq<string>) -> string
  type Disk = map<FileName, seq<KeyValue>>

  predicate ByKey(a: KeyValue, b: KeyValue) {
    Less(a.key, b.key)
  }

  lemma {:induction false} ByKeyIsOrdering()
    ensures Ordering(ByKey)
  {
    LessIsOrdering();
  }

  // ----- grouping

  /** The end of the run of equal keys that starts at `i`. */
  function RunEnd(s: seq<KeyValue>, i: nat, j: nat): (e: nat)
    requires i < j <= |s| && forall k | i <= k < j :: s[k].key == s[i].key
    ensures j <= e <= |s| && forall k | i <= k < e :: s[k].key == s[i].key
    ensures e < |s| ==> s[e].key != s[i].key
    decreases |s| - j
  {
    if j < |s| && s[j].key == s[i].key then RunEnd(s, i, j + 1) else j
  }

  function Values(s: seq<KeyValue>): (vs: seq<string>)
    ensures |vs| == |s|
  {
    seq(|s|, i requires 0 <= i < |s| => s[i].value)
  }

  /** One line per run of equal keys. */
  function Reduced(reducef: ReduceFn, s: seq<KeyValue>): seq<Line>
    decreases |s|
  {
    if s == [] then []
    else var e := RunEnd(s, 0, 1);
         [Line(s[0].key, reducef(s[0].key, Values(s[..e])))] + Reduced(reducef, s[e..])
  }

  lemma {:induction false} RunEndShift(s: seq<KeyValue>, i: nat, j: nat, e: nat)
    requires i < j <= |s| && forall k | i <= k < j :: s[k].key == s[i].key
    requires j <= e <= |s| && (forall k | i <= k < e :: s[k].key == s[i].key) && (e < |s| ==> s[e].key != s[i].key)
    ensures RunEnd(s[i..], 0, 1) == e - i
  {
    var t := s[i..];
    assert forall k | 0 <= k < |t| :: t[k] == s[i + k];
  }

  lemma {:induction false} ReducedStep(reducef: ReduceFn, s: seq<KeyValue>, i: nat, e: nat)
    requires i < e <= |s| && RunEnd(s[i..], 0, 1) == e - i
    ensures Reduced(reducef, s[i..]) ==
      [Line(s[i].key, reducef(s[i].key, Values(s[i..e])))] + Reduced(reducef, s[e..])
  {
    assert s[i..][..e - i] == s[i..e] && s[i..][e - i..] == s[e..];
  }

  /** worker.go:155-168; a key is compared with the one before it. */
  method GroupByNeighbour(intermediate: seq<KeyValue>, reducef: ReduceFn) returns (lines: seq<Line>)
    ensures lines == Reduced(reducef, intermediate)
  {
    lines := [];
    var i := 0;
    while i < |intermediate|
      invariant 0 <= i <= |intermediate|
      invariant lines + Reduced(reducef, intermediate[i..]) == Reduced(reducef, intermediate)
    {
      var j := i + 1;
      while j < |intermediate| && intermediate[j].key == intermediate[j - 1].key
        invariant i < j <= |intermediate|
        invariant forall k | i <= k < j :: intermediate[k].key == intermediate[i].key
      {
        j := j + 1;
      }
      var values := CollectValues(intermediate, i, j);
      RunEndShift(intermediate, i, i + 1, j);
      ReducedStep(reducef, intermediate, i, j);
      lines := lines + [Line(intermediate[i].key, reducef(intermediate[i].key, values))];
      i := j;
    }
  }

  /** mrsequential.go:68-84; a key is compared with the first of its run. */
  method GroupByFirst(intermediate: seq<KeyValue>, reducef: ReduceFn) returns (lines: seq<Line>)
    ensures lines == Reduced(reducef, intermediate)
  {
    lines := [];
    var i := 0;
    while i < |intermediate|
      invariant 0 <= i <= |intermediate|
      invariant lines + Reduced(reducef, intermediate[i..]) == Reduced(reducef, intermediate)
    {
      var j := i + 1;
      while j < |intermediate| && intermediate[j].key == intermediate[i].key
        invariant i < j <= |intermediate|
        invariant forall k | i <= k < j :: intermediate[k].key == intermediate[i].key
      {
        j := j + 1;
      }
      var values := CollectValues(intermediate, i, j);
      RunEndShift(intermediate, i, i + 1, j);
      ReducedStep(reducef, intermediate, i, j);
      lines := lines + [Line(intermediate[i].key, reducef(intermediate[i].key, values))];
      i := j;
    }
  }

  /** worker.go:161-164. */
  method CollectValues(s: seq<KeyValue>, i: nat, j: nat) returns (values: seq<string>)
    requires i <= j <= |s|
    ensures values == Values(s[i..j])
  {
    values := [];
    for k := i to j
      invariant values == Values(s[i..k])
    {
      assert s[i..k + 1] == s[i..k] + [s[k]];
      values := values + [s[k].value];
    }
  }

  // ----- what the lines are

  /** The values of one key, in the order in which they occur. */
  function ValuesOf(s: seq<KeyValue>, key: string): seq<string> {
    if s == [] then [] else (if s[0].key == key then [s[0].value] else []) + ValuesOf(s[1..], key)
  }

  function KeysIn(s: seq<KeyValue>): set<string> {
    set i | 0 <= i < |s| :: s[i].key
  }

  /** One line per key, for all of its values. */
  function LineFor(reducef: ReduceFn, s: seq<KeyValue>, key: string): Line {
    Line(key, reducef(key, ValuesOf(s, key)))
  }

  ghost predicate LinesOf(reducef: ReduceFn, s: seq<KeyValue>, lines: seq<Line>) {
    && Distinct(lines)
    && (forall l :: l in lines <==> l.key in KeysIn(s) && l == LineFor(reducef, s, l.key))
  }

  lemma {:induction false} ValuesOfAppend(s: seq<KeyValue>, t: seq<KeyValue>, key: string)
    ensures ValuesOf(s + t, key) == ValuesOf(s, key) + ValuesOf(t, key)
  {
    if s == [] {
      assert s + t == t;
    } else {
      var first := if s[0].key == key then [s[0].value] else [];
      var more, rest := ValuesOf(s[1..], key), ValuesOf(t, key);
      ValuesOfAppend(s[1..], t, key);
      assert (s + t)[0] == s[0] && (s + t)[1..] == s[1..] + t;
      assert ValuesOf(s + t, key) == first + (more + rest) == (first + more) + rest;
    }
  }

  lemma {:induction false} ValuesOfRun(s: seq<KeyValue>, key: string)
    requires forall i | 0 <= i < |s| :: s[i].key == key
    ensures ValuesOf(s, key) == Values(s)
  {
    if s != [] {
      ValuesOfRun(s[1..], key);
      assert Values(s) == [s[0].value] + Values(s[1..]);
    }
  }

  lemma {:induction false} ValuesOfAbsent(s: seq<KeyValue>, key: string)
    requires key !in KeysIn(s)
    ensures ValuesOf(s, key) == []
  {
    if s != [] {
      assert forall i | 0 <= i < |s[1..]| :: s[1..][i] == s[i + 1];
      ValuesOfAbsent(s[1..], key);
    }
  }

  /** In a sorted list the first run holds all occurrences of its key. */
  lemma {:induction false} FirstRunHoldsAll(s: seq<KeyValue>, e: nat)
    requires s != [] && Sorted(ByKey, s) && e == RunEnd(s, 0, 1)
    ensures s[0].key !in KeysIn(s[e..])
  {
    if e < |s| {
      forall k | e <= k < |s| ensures s[k].key != s[0].key {
        assert !ByKey(s[e], s[0]) && !ByKey(s[k], s[e]) by { assert k == e || !ByKey(s[k], s[e]); LessTrichotomy(s[e].key, s[e].key); }
        if s[k].key == s[0].key {
          LessTrichotomy(s[e].key, s[0].key);
        }
      }
    }
  }

  /** On sorted input, grouping runs is grouping keys: one line for each key, for all its
      values. */
  lemma {:induction false} ReducedSorted(reducef: ReduceFn, s: seq<KeyValue>)
    requires Sorted(ByKey, s)
    ensures LinesOf(reducef, s, Reduced(reducef, s))
    decreases |s|
  {
    if s != [] {
      var e := RunEnd(s, 0, 1);
      var run, rest, key := s[..e], s[e..], s[0].key;
      assert s == run + rest;
      FirstRunHoldsAll(s, e);
      assert Sorted(ByKey, rest) by { assert forall i | 0 <= i < |rest| :: rest[i] == s[e + i]; }
      ReducedSorted(reducef, rest);
      ValuesOfRun(run, key);
      ValuesOfAppend(run, rest, key);
      ValuesOfAbsent(rest, key);
      ReducedSortedStep(reducef, s, e);
    }
  }

  lemma {:induction false} ReducedSortedStep(reducef: ReduceFn, s: seq<KeyValue>, e: nat)
    requires s != [] && e == RunEnd(s, 0, 1) && s[0].key !in KeysIn(s[e..])
    requires LinesOf(reducef, s[e..], Reduced(reducef, s[e..]))
    requires ValuesOf(s, s[0].key) == Values(s[..e])
    ensures LinesOf(reducef, s, Reduced(reducef, s))
  {
    var run, rest, key := s[..e], s[e..], s[0].key;
    var first, more := Line(key, reducef(key, Values(run))), Reduced(reducef, rest);
    assert s == run + rest && Reduced(reducef, s) == [first] + more;
    KeysInAppend(run, rest);
    forall l ensures l in [first] + more <==> l.key in KeysIn(s) && l == LineFor(reducef, s, l.key) {
      if l.key != key {
        assert l.key !in KeysIn(run);
        ValuesOfAbsent(run, l.key);
        ValuesOfAppend(run, rest, l.key);
        assert [] + ValuesOf(rest, l.key) == ValuesOf(rest, l.key);
      }
    }
  }

  /** The lines are in ascending order of their keys. */
  ghost predicate Ascending(lines: seq<Line>) {
    forall i, j | 0 <= i < j < |lines| :: Before(lines[i].key, lines[j].key)
  }

  lemma {:induction false} ReducedKeys(reducef: ReduceFn, s: seq<KeyValue>, i: nat)
    requires i < |Reduced(reducef, s)|
    ensures Reduced(reducef, s)[i].key in KeysIn(s)
    decreases |s|
  {
    var e := RunEnd(s, 0, 1);
    if i > 0 {
      ReducedKeys(reducef, s[e..], i - 1);
      assert s == s[..e] + s[e..];
      KeysInAppend(s[..e], s[e..]);
    }
  }

  lemma {:induction false} LinesAscend(reducef: ReduceFn, s: seq<KeyValue>)
    requires Sorted(ByKey, s)
    ensures Ascending(Reduced(reducef, s))
    decreases |s|
  {
    if s != [] {
      var e := RunEnd(s, 0, 1);
      var rest, more := s[e..], Reduced(reducef, s[e..]);
      assert Sorted(ByKey, rest) by { assert forall i | 0 <= i < |rest| :: rest[i] == s[e + i]; }
      LinesAscend(reducef, rest);
      FirstRunHoldsAll(s, e);
      forall j | 0 <= j < |more| ensures Before(s[0].key, more[j].key) {
        ReducedKeys(reducef, rest, j);
        FirstComesBefore(s, e, more[j].key);
      }
    }
  }

  lemma {:induction false} FirstComesBefore(s: seq<KeyValue>, e: nat, key: string)
    requires s != [] && Sorted(ByKey, s) && 0 < e <= |s| && s[0].key !in KeysIn(s[e..]) && key in KeysIn(s[e..])
    ensures Before(s[0].key, key)
  {
    var k :| 0 <= k < |s[e..]| && s[e..][k].key == key;
    assert s[e + k].key == key && !ByKey(s[e + k], s[0]);
    LessTrichotomy(s[0].key, key);
    LessIsBefore(s[0].key, key);
  }

  lemma {:induction false} KeysInAppend(s: seq<KeyValue>, t: seq<KeyValue>)
    ensures KeysIn(s + t) == KeysIn(s) + KeysIn(t)
  {
    forall k ensures k in KeysIn(s + t) <==> k in KeysIn(s) || k in KeysIn(t) {
      if k in KeysIn(s) {
        var i :| 0 <= i < |s| && s[i].key == k;
        assert (s + t)[i].key == k;
      }
      if k in KeysIn(t) {
        var i :| 0 <= i < |t| && t[i].key == k;
        assert (s + t)[|s| + i].key == k;
      }
    }
  }

  // ----- the order of the values does not matter

  /** What the applications' reduce functions satisfy: only the values count, not their order. */
  ghost predicate Insensitive(reducef: ReduceFn) {
    forall k, vs, ws | multiset(vs) == multiset(ws) :: reducef(k, vs) == reducef(k, ws)
  }

  lemma {:induction false} ValuesCounted(s: seq<KeyValue>, key: string, v: string)
    ensures multiset(ValuesOf(s, key))[v] == multiset(s)[KeyValue(key, v)]
  {
    if s != [] {
      ValuesCounted(s[1..], key, v);
      assert s == [s[0]] + s[1..];
    }
  }

  /** The lines depend only on which pairs there are, not on their order. */
  lemma {:induction false} SameContentsSameLines(reducef: ReduceFn, s: seq<KeyValue>, t: seq<KeyValue>, lines: seq<Line>)
    requires Insensitive(reducef) && multiset(s) == multiset(t)
    ensures LinesOf(reducef, s, lines) <==> LinesOf(reducef, t, lines)
  {
    SameElements(s, t);
    assert KeysIn(s) == KeysIn(t) by {
      forall k ensures k in KeysIn(s) <==> k in KeysIn(t) { SameKeys(s, t, k); SameKeys(t, s, k); }
    }
    forall key ensures LineFor(reducef, s, key) == LineFor(reducef, t, key) {
      forall v ensures multiset(ValuesOf(s, key))[v] == multiset(ValuesOf(t, key))[v] {
        ValuesCounted(s, key, v);
        ValuesCounted(t, key, v);
      }
      assert multiset(ValuesOf(s, key)) == multiset(ValuesOf(t, key));
    }
  }

  lemma {:induction false} SameKeys(s: seq<KeyValue>, t: seq<KeyValue>, k: string)
    requires forall x | x in s :: x in t
    ensures k in KeysIn(s) ==> k in KeysIn(t)
  {
    if k in KeysIn(s) {
      var i :| 0 <= i < |s| && s[i].key == k;
      assert s[i] in t;
    }
  }

  lemma {:induction false} DistinctMultiset<T>(s: seq<T>, t: seq<T>)
    requires Distinct(s) && Distinct(t) && forall x :: x in s <==> x in t
    ensures multiset(s) == multiset(t)
  {
    forall x ensures multiset(s)[x] == multiset(t)[x] {
      CountOfDistinct(s, x);
      CountOfDistinct(t, x);
      assert x in multiset(s) <==> x in s;
      assert x in multiset(t) <==> x in t;
    }
  }

  // ----- buckets

  predicate InSlot(kv: KeyValue, ihash: string -> nat, n: nat, r: nat)
    requires n > 0
  {
    ihash(kv.key) % n == r
  }

  /** The pairs that go to reduce task `r`. */
  function Slot(s: seq<KeyValue>, ihash: string -> nat, n: nat, r: nat): seq<KeyValue>
    requires n > 0
  {
    if s == [] then []
    else Slot(s[..|s| - 1], ihash, n, r) + if InSlot(s[|s| - 1], ihash, n, r) then [s[|s| - 1]] else []
  }

  /** worker.go:130-134: each pair goes to the buffer of its key's hash. */
  method Bucket(intermediates: seq<KeyValue>, ihash: string -> nat, nReducer: nat) returns (buffer: seq<seq<KeyValue>>)
    requires nReducer > 0
    ensures |buffer| == nReducer && forall r | 0 <= r < nReducer :: buffer[r] == Slot(intermediates, ihash, nReducer, r)
  {
    buffer := seq(nReducer, _ => []);
    for i := 0 to |intermediates|
      invariant |buffer| == nReducer
      invariant forall r | 0 <= r < nReducer :: buffer[r] == Slot(intermediates[..i], ihash, nReducer, r)
    {
      var slot := ihash(intermediates[i].key) % nReducer;
      assert intermediates[..i + 1][..i] == intermediates[..i];
      buffer := buffer[slot := buffer[slot] + [intermediates[i]]];
    }
    assert intermediates[..|intermediates|] == intermediates;
  }

  lemma {:induction false} SlotAppend(s: seq<KeyValue>, t: seq<KeyValue>, ihash: string -> nat, n: nat, r: nat)
    requires n > 0
    ensures Slot(s + t, ihash, n, r) == Slot(s, ihash, n, r) + Slot(t, ihash, n, r)
  {
    if t == [] {
      assert s + t == s;
    } else {
      var k := |t| - 1;
      assert (s + t)[..|s + t| - 1] == s + t[..k];
      SlotAppend(s, t[..k], ihash, n, r);
    }
  }

  lemma {:induction false} SlotValues(s: seq<KeyValue>, ihash: string -> nat, n: nat, r: nat, key: string)
    requires n > 0
    ensures ValuesOf(Slot(s, ihash, n, r), key) == if ihash(key) % n == r then ValuesOf(s, key) else []
  {
    if s != [] {
      var k := |s| - 1;
      SlotValues(s[..k], ihash, n, r, key);
      assert s == s[..k] + [s[k]];
      ValuesOfAppend(s[..k], [s[k]], key);
      ValuesOfAppend(Slot(s[..k], ihash, n, r), if InSlot(s[k], ihash, n, r) then [s[k]] else [], key);
    }
  }

  lemma {:induction false} SlotKeys(s: seq<KeyValue>, ihash: string -> nat, n: nat, r: nat, key: string)
    requires n > 0
    ensures key in KeysIn(Slot(s, ihash, n, r)) <==> key in KeysIn(s) && ihash(key) % n == r
  {
    if s != [] {
      var k := |s| - 1;
      SlotKeys(s[..k], ihash, n, r, key);
      assert s == s[..k] + [s[k]];
      KeysInAppend(s[..k], [s[k]]);
      KeysInAppend(Slot(s[..k], ihash, n, r), if InSlot(s[k], ihash, n, r) then [s[k]] else []);
      assert KeysIn([s[k]]) == {s[k].key} && KeysIn([]) == {};
    }
  }

  /** The lines of a bucket are the lines of everything, for the keys of that bucket. */
  lemma {:induction false} SlotLines(reducef: ReduceFn, s: seq<KeyValue>, ihash: string -> nat, n: nat, r: nat, lines: seq<Line>)
    requires n > 0 && LinesOf(reducef, Slot(s, ihash, n, r), lines)
    ensures forall l :: l in lines <==>
      l.key in KeysIn(s) && ihash(l.key) % n == r && l == LineFor(reducef, s, l.key)
  {
    forall l ensures l in lines <==> l.key in KeysIn(s) && ihash(l.key) % n == r && l == LineFor(reducef, s, l.key) {
      SlotKeys(s, ihash, n, r, l.key);
      SlotValues(s, ihash, n, r, l.key);
    }
  }

  function Flatten<T>(ls: seq<seq<T>>): seq<T> {
    if ls == [] then [] else Flatten(ls[..|ls| - 1]) + ls[|ls| - 1]
  }

  lemma {:induction false} FlattenMembers<T>(ls: seq<seq<T>>, x: T)
    ensures x in Flatten(ls) <==> exists r | 0 <= r < |ls| :: x in ls[r]
  {
    if ls != [] {
      var k := |ls| - 1;
      FlattenMembers(ls[..k], x);
      if x in ls[k] { assert x in Flatten(ls); }
      if r :| 0 <= r < k && x in ls[r] { assert x in ls[..k][r]; }
      if r :| 0 <= r < k && x in ls[..k][r] { assert x in ls[r]; }
    }
  }

  /** All lines of all buckets are, together, the lines of everything. */
  lemma {:induction false} BucketsCover(reducef: ReduceFn, s: seq<KeyValue>, ihash: string -> nat, n: nat, outs: seq<seq<Line>>)
    requires n > 0 && |outs| == n
    requires forall r | 0 <= r < n :: LinesOf(reducef, Slot(s, ihash, n, r), outs[r])
    ensures LinesOf(reducef, s, Flatten(outs))
  {
    forall r | 0 <= r < n
      ensures forall l :: l in outs[r] <==> l.key in KeysIn(s) && ihash(l.key) % n == r && l == LineFor(reducef, s, l.key)
    {
      SlotLines(reducef, s, ihash, n, r, outs[r]);
    }
    forall l ensures l in Flatten(outs) <==> l.key in KeysIn(s) && l == LineFor(reducef, s, l.key) {
      FlattenMembers(outs, l);
      var r := ihash(l.key) % n;
      assert l in outs[r] <==> l.key in KeysIn(s) && l == LineFor(reducef, s, l.key);
    }
    FlattenDistinct(outs, ihash, n);
  }

  lemma {:induction false} FlattenDistinct(outs: seq<seq<Line>>, ihash: string -> nat, n: nat)
    requires n > 0 && |outs| <= n
    requires forall r | 0 <= r < |outs| :: Distinct(outs[r]) && forall l | l in outs[r] :: ihash(l.key) % n == r
    ensures Distinct(Flatten(outs))
  {
    if outs != [] {
      var k := |outs| - 1;
      FlattenDistinct(outs[..k], ihash, n);
      var front, last := Flatten(outs[..k]), outs[k];
      forall i, j | 0 <= i < |front| && 0 <= j < |last| ensures front[i] != last[j] {
        FlattenMembers(outs[..k], front[i]);
        assert last[j] in last;
        assert front[i] in front;
      }
    }
  }

  // ----- the map tasks

  function MapOutputs(mapf: MapFn, inputs: seq<Input>): (outs: seq<seq<KeyValue>>)
    ensures |outs| == |inputs|
  {
    seq(|inputs|, t requires 0 <= t < |inputs| => mapf(inputs[t].name, inputs[t].content))
  }

  predicate Below(order: seq<nat>, m: nat) {
    forall i | 0 <= i < |order| :: order[i] < m
  }

  /** The pairs of reduce task `r`, file by file in the given order of map tasks. */
  function Fetched(outs: seq<seq<KeyValue>>, order: seq<nat>, ihash: string -> nat, n: nat, r: nat): seq<KeyValue>
    requires n > 0 && Below(order, |outs|)
  {
    if order == [] then []
    else Slot(outs[order[0]], ihash, n, r) + Fetched(outs, order[1..], ihash, n, r)
  }

  lemma {:induction false} FetchedAppend(outs: seq<seq<KeyValue>>, a: seq<nat>, b: seq<nat>, ihash: string -> nat, n: nat, r: nat)
    requires n > 0 && Below(a, |outs|) && Below(b, |outs|)
    ensures Below(a + b, |outs|)
    ensures Fetched(outs, a + b, ihash, n, r) == Fetched(outs, a, ihash, n, r) + Fetched(outs, b, ihash, n, r)
  {
    if a == [] {
      assert a + b == b;
    } else {
      assert (a + b)[1..] == a[1..] + b;
      FetchedAppend(outs, a[1..], b, ihash, n, r);
    }
  }

  /** The order of the files does not change which pairs are fetched. */
  lemma {:induction false} FetchedPermuted(outs: seq<seq<KeyValue>>, a: seq<nat>, b: seq<nat>, ihash: string -> nat, n: nat, r: nat)
    requires n > 0 && Below(a, |outs|) && Below(b, |outs|)
    requires multiset(a) == multiset(b)
    ensures multiset(Fetched(outs, a, ihash, n, r)) == multiset(Fetched(outs, b, ihash, n, r))
    decreases |a|
  {
    hide Fetched;
    if a != [] {
      var p := HeadElsewhere(a, b);
      var x, y := b[..p], b[p + 1..];
      FetchedPermuted(outs, a[1..], x + y, ihash, n, r);
      assert a == [a[0]] + a[1..];
      FetchedAppend(outs, [a[0]], a[1..], ihash, n, r);
      FetchedMoved(outs, x, a[0], y, ihash, n, r);
    } else {
      SameElements(a, b);
    }
  }

  lemma {:induction false} FetchedMoved(
    outs: seq<seq<KeyValue>>, x: seq<nat>, t: nat, y: seq<nat>, ihash: string -> nat, n: nat, r: nat)
    requires n > 0 && Below(x, |outs|) && Below(y, |outs|) && t < |outs|
    ensures Below([t], |outs|) && Below(x + y, |outs|) && Below(x + ([t] + y), |outs|)
    ensures multiset(Fetched(outs, x + ([t] + y), ihash, n, r))
      == multiset(Fetched(outs, [t], ihash, n, r)) + multiset(Fetched(outs, x + y, ihash, n, r))
  {
    hide Fetched;
    FetchedAppend(outs, x, [t] + y, ihash, n, r);
    FetchedAppend(outs, [t], y, ihash, n, r);
    FetchedAppend(outs, x, y, ihash, n, r);
  }

  lemma {:induction false} WithoutOne(b: seq<nat>, p: nat)
    requires p < |b|
    ensures b == b[..p] + ([b[p]] + b[p + 1..])
    ensures multiset(b[..p] + b[p + 1..]) == multiset(b) - multiset{b[p]}
  {
    assert b == b[..p] + ([b[p]] + b[p + 1..]);
  }

  lemma {:induction false} HeadElsewhere(a: seq<nat>, b: seq<nat>) returns (p: nat)
    requires a != [] && multiset(a) == multiset(b)
    ensures p < |b| && b == b[..p] + ([a[0]] + b[p + 1..]) && a == [a[0]] + a[1..]
    ensures multiset(a[1..]) == multiset(b[..p] + b[p + 1..])
  {
    SameElements(a, b);
    assert a[0] in b;
    p :| 0 <= p < |b| && b[p] == a[0];
    WithoutOne(b, p);
    WithoutOne(a, 0);
    assert a[..0] + a[1..] == a[1..];
  }

  function UpTo(n: nat): (s: seq<nat>)
    ensures |s| == n && forall i | 0 <= i < n :: s[i] == i
  {
    seq(n, i requires 0 <= i < n => i)
  }

  lemma {:induction false} FetchedOne(outs: seq<seq<KeyValue>>, x: nat, ihash: string -> nat, n: nat, r: nat)
    requires n > 0 && x < |outs|
    ensures Fetched(outs, [x], ihash, n, r) == Slot(outs[x], ihash, n, r)
  {
    assert Fetched(outs, [x], ihash, n, r) == Slot(outs[x], ihash, n, r) + [];
  }

  lemma {:induction false} FetchedInOrder(outs: seq<seq<KeyValue>>, m: nat, ihash: string -> nat, n: nat, r: nat)
    requires n > 0 && m <= |outs|
    ensures Fetched(outs, UpTo(m), ihash, n, r) == Slot(Flatten(outs[..m]), ihash, n, r)
  {
    hide InSlot;
    if m > 0 {
      FetchedInOrder(outs, m - 1, ihash, n, r);
      assert UpTo(m) == UpTo(m - 1) + [m - 1];
      FetchedAppend(outs, UpTo(m - 1), [m - 1], ihash, n, r);
      FetchedOne(outs, m - 1, ihash, n, r);
      assert outs[..m][..m - 1] == outs[..m - 1];
      assert Flatten(outs[..m]) == Flatten(outs[..m - 1]) + outs[m - 1];
      SlotAppend(Flatten(outs[..m - 1]), outs[m - 1], ihash, n, r);
    }
  }

  /** `order` names every map task once. */
  ghost predicate EachOnce(order: seq<nat>, m: nat) {
    |order| == m && Distinct(order) && Below(order, m)
  }

  lemma {:induction false} FetchedContents(outs: seq<seq<KeyValue>>, order: seq<nat>, ihash: string -> nat, n: nat, r: nat)
    requires n > 0 && EachOnce(order, |outs|)
    ensures multiset(Fetched(outs, order, ihash, n, r)) == multiset(Slot(Flatten(outs), ihash, n, r))
  {
    PermutationIsOnto(order);
    var id := UpTo(|outs|);
    forall x ensures x in order <==> x in id {
      if 0 <= x < |outs| { assert id[x] == x; }
    }
    DistinctMultiset(order, id);
    FetchedPermuted(outs, order, id, ihash, n, r);
    FetchedInOrder(outs, |outs|, ihash, n, r);
    assert outs[..|outs|] == outs;
  }

  /** What the reduce tasks write, whatever the order of their files and the outcome of their
      sorts: the lines of their slot of everything that was mapped. */
  lemma {:induction false} ReduceTasksWrite(
    reducef: ReduceFn, ihash: string -> nat, mapped: seq<seq<KeyValue>>, n: nat,
    orders: seq<seq<nat>>, sorted: seq<seq<KeyValue>>, outs: seq<seq<Line>>)
    requires n > 0 && |orders| == |sorted| == |outs| == n && Insensitive(reducef)
    requires forall r | 0 <= r < n :: Below(orders[r], |mapped|) && EachOnce(orders[r], |mapped|)
    requires forall r | 0 <= r < n :: IsSort(ByKey, sorted[r], Fetched(mapped, orders[r], ihash, n, r))
    requires forall r | 0 <= r < n :: outs[r] == Reduced(reducef, sorted[r])
    ensures forall r | 0 <= r < n :: LinesOf(reducef, Slot(Flatten(mapped), ihash, n, r), outs[r])
  {
    hide ByKey, Fetched, Reduced, LinesOf, Insensitive;
    var all := Flatten(mapped);
    forall r | 0 <= r < n ensures LinesOf(reducef, Slot(all, ihash, n, r), outs[r]) {
      ReducedSorted(reducef, sorted[r]);
      FetchedContents(mapped, orders[r], ihash, n, r);
      SameContentsSameLines(reducef, sorted[r], Slot(all, ihash, n, r), outs[r]);
    }
  }

  /** The distributed run computes what the sequential program computes.  For every input, map
      function, hash, number of reduce tasks, order in which each reduce task reads the map
      tasks' files, and outcome of every sort: the lines of all reduce tasks together are the
      lines of the sequential program. */
  lemma {:induction false} DistributedIsSequential(
    mapf: MapFn, reducef: ReduceFn, ihash: string -> nat, inputs: seq<Input>, mapped: seq<seq<KeyValue>>, n: nat,
    orders: seq<seq<nat>>, sorted: seq<seq<KeyValue>>, outs: seq<seq<Line>>, sequential: seq<KeyValue>)
    requires n > 0 && |orders| == |sorted| == |outs| == n && Insensitive(reducef)
    requires mapped == MapOutputs(mapf, inputs)
    requires forall r | 0 <= r < n :: Below(orders[r], |mapped|) && EachOnce(orders[r], |mapped|)
    requires forall r | 0 <= r < n :: IsSort(ByKey, sorted[r], Fetched(mapped, orders[r], ihash, n, r))
    requires forall r | 0 <= r < n :: outs[r] == Reduced(reducef, sorted[r])
    requires IsSort(ByKey, sequential, Flatten(mapped))
    ensures multiset(Flatten(outs)) == multiset(Reduced(reducef, sequential))
  {
    hide ByKey, MapOutputs, Fetched, Reduced, LinesOf, Insensitive;
    var all := Flatten(mapped);
    ReduceTasksWrite(reducef, ihash, mapped, n, orders, sorted, outs);
    BucketsCover(reducef, all, ihash, n, outs);
    ReducedSorted(reducef, sequential);
    SameContentsSameLines(reducef, sequential, all, Reduced(reducef, sequential));
    LinesUnique(reducef, all, Flatten(outs), Reduced(reducef, sequential));
  }

  /** Each key is reduced once, by the task of its hash and on all of its values. */
  lemma {:induction false} KeyReducedOnce(
    reducef: ReduceFn, ihash: string -> nat, mapped: seq<seq<KeyValue>>, n: nat,
    orders: seq<seq<nat>>, sorted: seq<seq<KeyValue>>, outs: seq<seq<Line>>, key: string)
    requires n > 0 && |orders| == |sorted| == |outs| == n && Insensitive(reducef)
    requires forall r | 0 <= r < n :: Below(orders[r], |mapped|) && EachOnce(orders[r], |mapped|)
    requires forall r | 0 <= r < n :: IsSort(ByKey, sorted[r], Fetched(mapped, orders[r], ihash, n, r))
    requires forall r | 0 <= r < n :: outs[r] == Reduced(reducef, sorted[r])
    ensures var line := LineFor(reducef, Flatten(mapped), key);
      && (key in KeysIn(Flatten(mapped)) <==> line in outs[ihash(key) % n])
      && (forall r | 0 <= r < n && r != ihash(key) % n :: line !in outs[r])
      && (forall r, l | 0 <= r < n && l in outs[r] && l.key == key :: l == line)
      && (forall r | 0 <= r < n :: Distinct(outs[r]))
  {
    hide ByKey, Fetched, Reduced, Insensitive, LineFor;
    ReduceTasksWrite(reducef, ihash, mapped, n, orders, sorted, outs);
    assert LineFor(reducef, Flatten(mapped), key).key == key by { LineKey(reducef, Flatten(mapped), key); }
    forall r | 0 <= r < n
      ensures forall l :: l in outs[r] <==>
        l.key in KeysIn(Flatten(mapped)) && ihash(l.key) % n == r && l == LineFor(reducef, Flatten(mapped), l.key)
    {
      SlotLines(reducef, Flatten(mapped), ihash, n, r, outs[r]);
    }
  }

  lemma {:induction false} LineKey(reducef: ReduceFn, s: seq<KeyValue>, key: string)
    ensures LineFor(reducef, s, key).key == key
  {
  }

  lemma {:induction false} LinesUnique(reducef: ReduceFn, s: seq<KeyValue>, a: seq<Line>, b: seq<Line>)
    requires LinesOf(reducef, s, a) && LinesOf(reducef, s, b)
    ensures multiset(a) == multiset(b)
  {
    DistinctMultiset(a, b);
  }
}
