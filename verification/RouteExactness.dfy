/** gee/trie.go, gee/router.go: for which tables a lookup agrees with trying the registered
    patterns one by one. */
module RouteExactness {
  import opened Paths
  import opened Trie
  import opened TrieLookup
  import opened RouteTable

  /** The lookup finds something exactly when some registered pattern matches the path, and
      what it finds is a pattern that does. */
  ghost predicate Agrees(rs: seq<string>, qs: seq<string>) {
    var found := Search(Tree(rs), qs);
    && (found.Some? <==> exists i | 0 <= i < |rs| :: Matches(Parse(rs[i]), qs))
    && (found.Some? ==> Matches(Parse(found.value), qs))
  }

  ghost predicate AgreesOn(rs: seq<string>, path: string) {
    Agrees(rs, Parse(path))
  }

  /** `a` matches whatever `b` matches. */
  predicate Generalises(a: seq<string>, b: seq<string>) {
    Matches(a, b) && (EndsInStar(b) ==> EndsInStar(a))
  }

  /** A pattern that ends in a star, as if the star stood for `n` more parts. */
  function Stretch(ps: seq<string>, n: nat): (s: seq<string>)
    ensures |s| == |ps| + if EndsInStar(ps) then n else 0
    ensures forall k | 0 <= k < |ps| :: s[k] == ps[k]
    ensures forall k | |ps| <= k < |s| :: s[k] == ps[|ps| - 1]
  {
    if EndsInStar(ps) then ps + seq(n, _ => ps[|ps| - 1]) else ps
  }

  function Deepest(rs: seq<string>): (d: nat)
    ensures forall i | 0 <= i < |rs| :: |Parse(rs[i])| <= d
  {
    if rs == [] then 0
    else
      var d, n := Deepest(rs[..|rs| - 1]), |Parse(rs[|rs| - 1])|;
      if d < n then n else d
  }

  /** The pattern that a node ends up with matches whatever leads to that node. */
  ghost predicate PatternsFit(rs: seq<string>) {
    forall i | 0 <= i < |rs| && Winner(rs, i, SpelledAs(rs, i)) && StarOnlyLast(SpelledAs(rs, i)) ::
      Generalises(Parse(rs[i]), SpelledAs(rs, i))
  }

  ghost predicate Reached(rs: seq<string>, ps: seq<string>, n: nat) {
    exists j | 0 <= j < |rs| :: Takes(SpelledAs(rs, j), Stretch(ps, n))
  }

  /** A pattern with a star is covered by the spellings in the trie, at every length. */
  ghost predicate StarsReached(rs: seq<string>) {
    forall i, n: nat | 0 <= i < |rs| && EndsInStar(Parse(rs[i])) && n <= Deepest(rs) :: Reached(rs, Parse(rs[i]), n)
  }

  // ----- the conditions suffice

  lemma {:induction false} GeneralisesMatches(a: seq<string>, b: seq<string>, qs: seq<string>)
    requires Generalises(a, b) && Matches(b, qs)
    ensures Matches(a, qs)
  {
    hide Wild;
  }

  lemma {:induction false} StretchTakes(path: seq<string>, ps: seq<string>, n: nat, qs: seq<string>)
    requires Takes(path, Stretch(ps, n)) && Matches(ps, qs) && |qs| == |Stretch(ps, n)|
    ensures Takes(path, qs)
  {
    hide Stretch;
    var s := Stretch(ps, n);
    forall k | 0 <= k < |path| ensures Fits(path[k], qs[k]) {
      assert Fits(path[k], s[k]);
      assert k < |ps| ==> s[k] == ps[k] && Fits(ps[k], qs[k]);
    }
  }

  /** Past the deepest pattern, only a star can take a path, and it takes any longer one. */
  lemma {:induction false} ReachedLonger(rs: seq<string>, ps: seq<string>, n: nat)
    requires EndsInStar(ps) && n > Deepest(rs) && Reached(rs, ps, Deepest(rs))
    ensures Reached(rs, ps, n)
  {
    hide Deepest, SpelledAs, Fits, Star, Parse;
    var d := Deepest(rs);
    var j :| 0 <= j < |rs| && Takes(SpelledAs(rs, j), Stretch(ps, d));
    var path := SpelledAs(rs, j);
    assert |path| == |Parse(rs[j])| <= d;
    forall k | 0 <= k < |path| ensures Fits(path[k], Stretch(ps, n)[k]) {
      assert Stretch(ps, n)[k] == Stretch(ps, d)[k];
    }
    assert Takes(path, Stretch(ps, n));
  }

  lemma {:induction false} MatchedIsFound(rs: seq<string>, qs: seq<string>, i: nat)
    requires NonEmpty(rs) && StarsReached(rs) && i < |rs| && Matches(Parse(rs[i]), qs)
    ensures Search(Tree(rs), qs).Some?
  {
    hide Search, Tree, SpelledAs, Fits, Star, Deepest, Parse, Stretch;
    var ps := Parse(rs[i]);
    if EndsInStar(ps) {
      var n := |qs| - |ps|;
      if n > Deepest(rs) {
        assert Reached(rs, ps, Deepest(rs));
        ReachedLonger(rs, ps, n);
      }
      assert Reached(rs, ps, n);
      var j :| 0 <= j < |rs| && Takes(SpelledAs(rs, j), Stretch(ps, n));
      StretchTakes(SpelledAs(rs, j), ps, n, qs);
      LookupComplete(rs, qs, j);
    } else {
      StarFreeFound(rs, qs, i);
    }
  }

  lemma {:induction false} ConditionsSuffice(rs: seq<string>, qs: seq<string>)
    requires NonEmpty(rs) && PatternsFit(rs) && StarsReached(rs)
    ensures Agrees(rs, qs)
  {
    hide Search, Tree, SpelledAs, Matches, Winner, Parse, StarsReached, Generalises;
    if Search(Tree(rs), qs).Some? {
      var i := LookupSound(rs, qs);
      assert StarOnlyLast(SpelledAs(rs, i)) by { MatchesStars(SpelledAs(rs, i), qs); }
      GeneralisesMatches(Parse(rs[i]), SpelledAs(rs, i), qs);
    }
    if i :| 0 <= i < |rs| && Matches(Parse(rs[i]), qs) {
      MatchedIsFound(rs, qs, i);
    }
  }

  lemma {:induction false} MatchesStars(ps: seq<string>, qs: seq<string>)
    requires Matches(ps, qs)
    ensures StarOnlyLast(ps)
  {
  }

  // ----- no merging is enough

  /** Every registration goes only through nodes spelled like its own parts. */
  ghost predicate NoMerge(rs: seq<string>) {
    forall i | 0 <= i < |rs| :: SpelledAs(rs, i) == Parse(rs[i])
  }

  lemma {:induction false} MatchesItself(p: string, n: nat)
    ensures Generalises(Parse(p), Parse(p)) && Takes(Parse(p), Stretch(Parse(p), n))
  {
    hide Parse;
    ParseSegments(p);
  }

  /** Without merging, the trie is an index of the patterns. */
  lemma {:induction false} NoMergeAgrees(rs: seq<string>, path: string)
    requires NonEmpty(rs) && NoMerge(rs)
    ensures AgreesOn(rs, path)
  {
    hide SpelledAs, Parse, Winner, Generalises, Takes, Stretch, Agrees;
    forall i | 0 <= i < |rs| ensures Generalises(Parse(rs[i]), SpelledAs(rs, i)) {
      MatchesItself(rs[i], 0);
    }
    forall i, n: nat | 0 <= i < |rs| ensures Reached(rs, Parse(rs[i]), n) {
      MatchesItself(rs[i], n);
      assert Takes(SpelledAs(rs, i), Stretch(Parse(rs[i]), n));
    }
    assert PatternsFit(rs) && StarsReached(rs);
    ConditionsSuffice(rs, Parse(path));
  }
}
