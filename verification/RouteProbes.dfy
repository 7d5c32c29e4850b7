/** gee/trie.go, gee/router.go: the conditions of RouteExactness.dfy are also necessary.  When
    one of them fails there is a path on which the lookup goes wrong. */
module RouteProbes {
  import opened Linearizability
  import opened Paths
  import opened Trie
  import opened TrieLookup
  import opened RouteTable
  import opened RouteExactness

  /** A path that takes the pattern at its word: an unheard-of segment for every wild part, and
      `n` more of them for a star. */
  function Probe(ps: seq<string>, f: string, n: nat): (qs: seq<string>)
    ensures |qs| == |Stretch(ps, n)|
    ensures forall k | 0 <= k < |ps| :: qs[k] == if Wild(ps[k]) then f else ps[k]
    ensures forall k | |ps| <= k < |qs| :: qs[k] == f
  {
    seq(|Stretch(ps, n)|, k requires 0 <= k < |Stretch(ps, n)| => if k >= |ps| || Wild(ps[k]) then f else ps[k])
  }

  /** A segment that is no part of any registered pattern. */
  predicate Unheard(rs: seq<string>, f: string) {
    && f != "" && '/' !in f && !Wild(f)
    && forall i | 0 <= i < |rs| :: f !in Parse(rs[i])
  }

  predicate Avoids(t: Trie, f: string) {
    forall i | 0 <= i < |t.children| :: t.children[i].part != f && Avoids(t.children[i], f)
  }

  // ----- there is always an unheard-of segment

  function Longest(rs: seq<string>): (n: nat)
    ensures forall i | 0 <= i < |rs| :: |rs[i]| <= n
  {
    if rs == [] then 0
    else
      var n := Longest(rs[1..]);
      if n < |rs[0]| then |rs[0]| else n
  }

  lemma {:induction false} PiecesShort(s: string)
    ensures forall k | 0 <= k < |Split(s)| :: |Split(s)[k]| <= |s|
  {
    if s != "" {
      PiecesShort(s[1..]);
      var vs := Split(s[1..]);
      assert s[0] != '/' ==> Split(s)[0] == [s[0]] + vs[0] && |vs[0]| <= |s| - 1;
    }
  }

  lemma {:induction false} PartsArePieces(vs: seq<string>, p: string)
    requires p in Parts(vs)
    ensures p in vs
  {
    if vs[0] == "" || p != vs[0] {
      PartsArePieces(vs[1..], p);
    }
  }

  lemma {:induction false} SomeUnheard(rs: seq<string>) returns (f: string)
    ensures Unheard(rs, f)
  {
    f := seq(Longest(rs) + 1, _ => 'a');
    forall i | 0 <= i < |rs| ensures f !in Parse(rs[i]) {
      PiecesShort(rs[i]);
      if f in Parse(rs[i]) {
        PartsArePieces(Split(rs[i]), f);
      }
    }
  }

  lemma {:induction false} InsertAvoids(t: Trie, pattern: string, parts: seq<string>, f: string)
    requires Avoids(t, f) && f !in parts
    ensures Avoids(Insert(t, pattern, parts), f)
    decreases |parts|
  {
    if parts != [] {
      var c := NextNode(t, parts);
      InsertAvoids(c, pattern, parts[1..], f);
      InsertKeepsPart(c, pattern, parts[1..]);
      assert parts[0] in parts;
    }
  }

  lemma {:induction false} TreeAvoids(rs: seq<string>, f: string)
    requires forall i | 0 <= i < |rs| :: f !in Parse(rs[i])
    ensures Avoids(Tree(rs), f)
  {
    if rs != [] {
      var n := |rs| - 1;
      assert forall i | 0 <= i < n :: rs[..n][i] == rs[i];
      TreeAvoids(rs[..n], f);
      InsertAvoids(Tree(rs[..n]), rs[n], Parse(rs[n]), f);
    }
  }

  // ----- a probe finds the node it is made for

  lemma {:induction false} OnlyChild(cs: seq<Trie>, qs: seq<string>, k: nat)
    requires qs != [] && k < |cs| && forall j | 0 <= j < k :: !Fits(cs[j].part, qs[0])
    requires Fits(cs[k].part, qs[0]) && Search(cs[k], qs[1..]).Some?
    ensures SearchChildren(cs, qs) == Search(cs[k], qs[1..])
    decreases |cs|
  {
    if k > 0 {
      assert !Fits(cs[0].part, qs[0]);
      OnlyChild(cs[1..], qs, k - 1);
    }
  }

  lemma {:induction false} ProbeTail(path: seq<string>, f: string, n: nat)
    requires path != [] && !Star(path[0])
    ensures Probe(path, f, n)[1..] == Probe(path[1..], f, n)
  {
    assert |path| > 1 ==> path[|path| - 1] == path[1..][|path| - 2];
  }

  lemma {:induction false} ProbeFound(t: Trie, path: seq<string>, f: string, n: nat)
    requires Shaped(t) && Avoids(t, f) && !Wild(f) && !Star(t.part)
    requires StarOnlyLast(path) && PatternAt(t, path) != ""
    ensures Search(t, Probe(path, f, n)) == Some(PatternAt(t, path))
    decreases |path|
  {
    if path != [] {
      hide StarOnlyLast, EndsInStar, Stretch;
      var qs := Probe(path, f, n);
      var k := ChildNamed(t.children, path[0]);
      var c := t.children[k];
      assert Proper(c);
      StarsInTail(path);
      if !Star(c.part) {
        ProbeTail(path, f, n);
        ProbeFound(c, path[1..], f, n);
      }
      EarlierDoNotFit(t, k, f);
      OnlyChild(t.children, qs, k);
    }
  }

  lemma {:induction false} StarsInTail(path: seq<string>)
    requires path != [] && StarOnlyLast(path)
    ensures StarOnlyLast(path[1..]) && (Star(path[0]) ==> path[1..] == [])
  {
    assert forall k | 0 <= k < |path| - 1 :: path[1..][k] == path[k + 1];
  }

  lemma {:induction false} EarlierDoNotFit(t: Trie, k: nat, f: string)
    requires Shaped(t) && Avoids(t, f) && k < |t.children|
    ensures var q := if Wild(t.children[k].part) then f else t.children[k].part;
      forall j | 0 <= j < k :: !Fits(t.children[j].part, q)
  {
    forall j | 0 <= j < k ensures !Wild(t.children[j].part) && t.children[j].part != t.children[k].part {
      assert !Fits(t.children[j].part, t.children[k].part);
    }
  }

  // ----- the conditions are necessary

  lemma {:induction false} ProbeSegments(ps: seq<string>, path: seq<string>, f: string, n: nat)
    requires Segments(ps) && |path| == |ps| && forall k | 0 <= k < |ps| :: path[k] == ps[k] || Wild(path[k])
    requires f != "" && '/' !in f && !Wild(f)
    ensures Segments(Probe(path, f, n))
  {
    hide Stretch;
  }

  /** A pattern that matches the probe of a spelling generalises the spelling. */
  lemma {:induction false} ProbeGeneralises(ps: seq<string>, path: seq<string>, f: string)
    requires f !in ps && |path| == |ps| && forall k | 0 <= k < |ps| :: path[k] == ps[k] || Wild(path[k])
    requires Matches(ps, Probe(path, f, 1))
    ensures Generalises(ps, path)
  {
    var qs := Probe(path, f, 1);
    forall k | 0 <= k < |ps| ensures Fits(ps[k], path[k]) {
      assert Fits(ps[k], qs[k]);
      assert ps[k] in ps;
    }
  }

  lemma {:induction false} PatternsFitNeeded(rs: seq<string>, f: string, i: nat)
    requires NonEmpty(rs) && Unheard(rs, f) && forall path :: AgreesOn(rs, path)
    requires i < |rs| && Winner(rs, i, SpelledAs(rs, i)) && StarOnlyLast(SpelledAs(rs, i))
    ensures Generalises(Parse(rs[i]), SpelledAs(rs, i))
  {
    hide SpelledAs, Parse, Tree, Search, Shaped, Avoids, PatternAt, Probe, Segments, StarOnlyLast, Generalises, Matches;
    var path := SpelledAs(rs, i);
    var qs := Probe(path, f, 1);
    ParseSegments(rs[i]);
    ProbeSegments(Parse(rs[i]), path, f, 1);
    ParseJoin(qs);
    assert AgreesOn(rs, Join(qs));
    TreeShaped(rs);
    TreeAvoids(rs, f);
    PatternAtTree(rs, path);
    ProbeFound(Tree(rs), path, f, 1);
    ProbeGeneralises(Parse(rs[i]), path, f);
  }

  lemma {:induction false} ProbeMatches(ps: seq<string>, f: string, n: nat)
    requires StarOnlyLast(ps)
    ensures Matches(ps, Probe(ps, f, n))
  {
  }

  lemma {:induction false} ProbeTaken(path: seq<string>, ps: seq<string>, f: string, n: nat)
    requires f !in path && Takes(path, Probe(ps, f, n))
    ensures Takes(path, Stretch(ps, n))
  {
    var qs, s := Probe(ps, f, n), Stretch(ps, n);
    forall k | 0 <= k < |path| ensures Fits(path[k], s[k]) {
      assert Fits(path[k], qs[k]);
      assert path[k] in path;
    }
  }

  lemma {:induction false} StarsReachedNeeded(rs: seq<string>, f: string, i: nat, n: nat)
    requires NonEmpty(rs) && Unheard(rs, f) && i < |rs| && forall path :: AgreesOn(rs, path)
    ensures Reached(rs, Parse(rs[i]), n)
  {
    hide Parse, Tree, Search, Probe, Segments, SpelledAs, Takes, Stretch;
    var ps := Parse(rs[i]);
    var qs := Probe(ps, f, n);
    ParseSegments(rs[i]);
    ProbeSegments(ps, ps, f, n);
    ParseJoin(qs);
    assert AgreesOn(rs, Join(qs));
    assert StarOnlyLast(ps) by { SegmentsStars(ps); }
    ProbeMatches(ps, f, n);
    var j := LookupSound(rs, qs);
    var path := SpelledAs(rs, j);
    assert f !in path by { SpellingUnheard(rs, f, j); }
    ProbeTaken(path, ps, f, n);
  }

  lemma {:induction false} SegmentsStars(ps: seq<string>)
    requires Segments(ps)
    ensures StarOnlyLast(ps)
  {
  }

  lemma {:induction false} SpellingUnheard(rs: seq<string>, f: string, j: nat)
    requires Unheard(rs, f) && j < |rs|
    ensures f !in SpelledAs(rs, j)
  {
    hide SpelledAs;
    var path, ps := SpelledAs(rs, j), Parse(rs[j]);
    forall k | 0 <= k < |path| ensures path[k] != f {
      assert ps[k] in ps;
    }
  }

  /** The trie agrees with a scan of the registered patterns on every path if and only if every
      node's pattern matches what leads to the node, and every pattern with a star is covered. */
  lemma {:induction false} ExactIff(rs: seq<string>)
    requires NonEmpty(rs)
    ensures (forall path :: AgreesOn(rs, path)) <==> PatternsFit(rs) && StarsReached(rs)
  {
    hide Agrees, Generalises, Reached, SpelledAs, Winner, StarOnlyLast, EndsInStar, Parse, Deepest;
    if PatternsFit(rs) && StarsReached(rs) {
      forall path ensures AgreesOn(rs, path) {
        ConditionsSuffice(rs, Parse(path));
      }
    }
    if forall path :: AgreesOn(rs, path) {
      var f := SomeUnheard(rs);
      forall i | 0 <= i < |rs| && Winner(rs, i, SpelledAs(rs, i)) && StarOnlyLast(SpelledAs(rs, i))
        ensures Generalises(Parse(rs[i]), SpelledAs(rs, i))
      {
        PatternsFitNeeded(rs, f, i);
      }
      forall i, n: nat | 0 <= i < |rs| && EndsInStar(Parse(rs[i])) && n <= Deepest(rs) ensures Reached(rs, Parse(rs[i]), n) {
        StarsReachedNeeded(rs, f, i, n);
      }
    }
  }
}
