/** gee/trie.go:48-65: a lookup agrees with a scan of everything that the trie holds. */
module TrieLookup {
  import opened Paths
  import opened Trie

  predicate EndsInStar(ps: seq<string>) {
    ps != [] && Star(ps[|ps| - 1])
  }

  /** As many parts as segments, or fewer if the last is a star; and each takes its segment. */
  predicate Takes(ps: seq<string>, qs: seq<string>) {
    && (|qs| == |ps| || (EndsInStar(ps) && |qs| > |ps|))
    && (forall k | 0 <= k < |ps| :: Fits(ps[k], qs[k]))
  }

  predicate StarOnlyLast(ps: seq<string>) {
    forall k | 0 <= k < |ps| - 1 :: !Star(ps[k])
  }

  /** Whether a pattern matches a path, by its parts: `:name` takes any one segment, `*name` at
      the end takes one or more, anything else only itself. */
  predicate Matches(ps: seq<string>, qs: seq<string>) {
    StarOnlyLast(ps) && Takes(ps, qs)
  }

  /** A match, one part at a time. */
  lemma {:induction false} MatchesCons(part: string, path: seq<string>, qs: seq<string>)
    ensures Matches([part] + path, qs) <==>
      qs != [] && Fits(part, qs[0]) && if Star(part) then path == [] else Matches(path, qs[1..])
  {
    hide Matches, Fits, Star;
    if Matches([part] + path, qs) {
      MatchesRest(part, path, qs);
    }
    if qs != [] && Fits(part, qs[0]) && if Star(part) then path == [] else Matches(path, qs[1..]) {
      RestMatches(part, path, qs);
    }
  }

  lemma {:induction false} MatchesRest(part: string, path: seq<string>, qs: seq<string>)
    requires Matches([part] + path, qs)
    ensures qs != [] && Fits(part, qs[0]) && if Star(part) then path == [] else Matches(path, qs[1..])
  {
    hide Fits, Star;
    TakesRest(part, path, qs);
    var ps := [part] + path;
    assert ps[0] == part;
    assert forall k | 0 <= k < |path| :: path[k] == ps[k + 1];
  }

  lemma {:induction false} TakesRest(part: string, path: seq<string>, qs: seq<string>)
    requires Takes([part] + path, qs)
    ensures qs != [] && Fits(part, qs[0]) && (!Star(part) ==> Takes(path, qs[1..]))
  {
    hide Fits, Star;
    var ps := [part] + path;
    assert ps[0] == part;
    assert forall k | 0 <= k < |path| :: path[k] == ps[k + 1] && qs[1..][k] == qs[k + 1];
  }

  lemma {:induction false} RestMatches(part: string, path: seq<string>, qs: seq<string>)
    requires qs != [] && Fits(part, qs[0]) && if Star(part) then path == [] else Matches(path, qs[1..])
    ensures Matches([part] + path, qs)
  {
    hide Fits, Star;
    var ps := [part] + path;
    forall k | 0 <= k < |ps| ensures Fits(ps[k], qs[k]) && (k < |ps| - 1 ==> !Star(ps[k])) {
      if k > 0 {
        assert ps[k] == path[k - 1] && qs[k] == qs[1..][k - 1];
      }
    }
    if path != [] {
      assert ps[|ps| - 1] == path[|path| - 1];
    }
  }

  // ----- the search below one node

  lemma {:induction false} FoundChild(cs: seq<Trie>, qs: seq<string>) returns (k: nat)
    requires qs != [] && SearchChildren(cs, qs).Some?
    ensures k < |cs| && Fits(cs[k].part, qs[0]) && Search(cs[k], qs[1..]) == SearchChildren(cs, qs)
    ensures forall j | 0 <= j < k :: !(Fits(cs[j].part, qs[0]) && Search(cs[j], qs[1..]).Some?)
    decreases |cs|
  {
    if Fits(cs[0].part, qs[0]) && Search(cs[0], qs[1..]).Some? {
      k := 0;
    } else {
      var j := FoundChild(cs[1..], qs);
      k := j + 1;
    }
  }

  lemma {:induction false} ChildFound(cs: seq<Trie>, qs: seq<string>, k: nat)
    requires qs != [] && k < |cs| && Fits(cs[k].part, qs[0]) && Search(cs[k], qs[1..]).Some?
    ensures SearchChildren(cs, qs).Some?
    decreases |cs|
  {
    if k > 0 {
      ChildFound(cs[1..], qs, k - 1);
    }
  }

  lemma {:induction false} NamedItself(t: Trie, k: nat)
    requires Shaped(t) && k < |t.children|
    ensures ChildNamed(t.children, t.children[k].part) == k
  {
    var j := ChildNamed(t.children, t.children[k].part);
    assert j < k ==> !Fits(t.children[j].part, t.children[k].part);
  }

  // ----- both directions

  /** A node that has a pattern is not missed: the lookup finds it, or something before it. */
  lemma {:induction false} SearchComplete(t: Trie, qs: seq<string>, path: seq<string>)
    requires Shaped(t) && !Star(t.part) && Takes(path, qs) && PatternAt(t, path) != ""
    ensures Search(t, qs).Some?
    decreases |qs|
  {
    if path != [] {
      var k := ChildNamed(t.children, path[0]);
      var c := t.children[k];
      assert path == [path[0]] + path[1..];
      TakesRest(path[0], path[1..], qs);
      assert Proper(c);
      if !Star(c.part) {
        SearchComplete(c, qs[1..], path[1..]);
      }
      ChildFound(t.children, qs, k);
    }
  }

  // ----- which of several

  /** At the first part in which they differ, `p` has a literal and `o` is wild. */
  ghost predicate Preferred(p: seq<string>, o: seq<string>) {
    exists k: nat :: LiteralFirstAt(p, o, k)
  }

  predicate LiteralFirstAt(p: seq<string>, o: seq<string>, k: nat) {
    k < |p| && k < |o| && p[..k] == o[..k] && !Wild(p[k]) && Wild(o[k])
  }

  lemma {:induction false} PreferredCons(part: string, p: seq<string>, o: seq<string>)
    requires Preferred(p, o)
    ensures Preferred([part] + p, [part] + o)
  {
    var k: nat :| LiteralFirstAt(p, o, k);
    assert ([part] + p)[..k + 1] == [part] + p[..k] && ([part] + o)[..k + 1] == [part] + o[..k];
    assert LiteralFirstAt([part] + p, [part] + o, k + 1);
  }

  /** A node with a pattern that matches the path. */
  ghost predicate Candidate(t: Trie, qs: seq<string>, path: seq<string>) {
    Matches(path, qs) && PatternAt(t, path) != ""
  }

  /** The child through which a candidate goes. */
  lemma {:induction false} CandidateChild(t: Trie, qs: seq<string>, path: seq<string>) returns (k: nat)
    requires Shaped(t) && qs != [] && Candidate(t, qs, path)
    ensures path != [] && k < |t.children| && t.children[k].part == path[0] && Fits(path[0], qs[0])
    ensures Search(t.children[k], qs[1..]).Some?
    ensures if Star(path[0]) then path == [path[0]] else Candidate(t.children[k], qs[1..], path[1..])
  {
    hide Matches;
    assert path != [] by { MatchesSome(path, qs); }
    k := ChildNamed(t.children, path[0]);
    assert path == [path[0]] + path[1..];
    MatchesCons(path[0], path[1..], qs);
    var c := t.children[k];
    assert Proper(c) && Shaped(c);
    if !Star(path[0]) {
      assert Takes(path[1..], qs[1..]) by { MatchesTakes(path[1..], qs[1..]); }
      SearchComplete(c, qs[1..], path[1..]);
    }
  }

  lemma {:induction false} MatchesSome(path: seq<string>, qs: seq<string>)
    requires Matches(path, qs) && qs != []
    ensures path != []
  {
  }

  lemma {:induction false} MatchesTakes(path: seq<string>, qs: seq<string>)
    requires Matches(path, qs)
    ensures Takes(path, qs)
  {
  }

  /** Two children that take the same segment: the one in front is literal, the other wild. */
  lemma {:induction false} LiteralInFront(t: Trie, j: nat, k: nat, seg: string)
    requires Shaped(t) && j < k < |t.children| && Fits(t.children[j].part, seg) && Fits(t.children[k].part, seg)
    ensures !Wild(t.children[j].part) && Wild(t.children[k].part)
  {
    assert !Fits(t.children[j].part, t.children[k].part);
  }

  lemma {:induction false} OtherCandidate(t: Trie, qs: seq<string>, k: nat, rest: seq<string>, o: seq<string>)
    requires Shaped(t) && qs != [] && k < |t.children| && Fits(t.children[k].part, qs[0])
    requires forall j | 0 <= j < k :: !(Fits(t.children[j].part, qs[0]) && Search(t.children[j], qs[1..]).Some?)
    requires if Star(t.children[k].part) then rest == []
             else forall o' | Candidate(t.children[k], qs[1..], o') :: o' == rest || Preferred(rest, o')
    requires Candidate(t, qs, o)
    ensures o == [t.children[k].part] + rest || Preferred([t.children[k].part] + rest, o)
  {
    hide Candidate, Preferred;
    var part := t.children[k].part;
    var j := CandidateChild(t, qs, o);
    assert o == [o[0]] + o[1..];
    if j == k {
      if !Star(part) && o[1..] != rest {
        PreferredCons(part, rest, o[1..]);
      }
    } else {
      LiteralInFront(t, k, j, qs[0]);
      var path := [part] + rest;
      assert LiteralFirstAt(path, o, 0);
      assert Preferred(path, o) by { PreferredAt(path, o, 0); }
    }
  }

  lemma {:induction false} PreferredAt(p: seq<string>, o: seq<string>, k: nat)
    requires LiteralFirstAt(p, o, k)
    ensures Preferred(p, o)
  {
  }

  /** The lookup finds, among all nodes that match, the one that is preferred to every other. */
  lemma {:induction false} SearchSound(t: Trie, qs: seq<string>) returns (path: seq<string>)
    requires Shaped(t) && !Star(t.part) && Search(t, qs).Some?
    ensures Matches(path, qs) && PatternAt(t, path) == Search(t, qs).value != ""
    ensures forall o | Candidate(t, qs, o) :: o == path || Preferred(path, o)
    decreases |qs|
  {
    if qs == [] {
      path := [];
    } else {
      var k := FoundChild(t.children, qs);
      var c := t.children[k];
      NamedItself(t, k);
      var rest := [];
      if !Star(c.part) {
        rest := SearchSound(c, qs[1..]);
      }
      path := [c.part] + rest;
      assert path[1..] == rest;
      MatchesCons(c.part, rest, qs);
      forall o | Candidate(t, qs, o) ensures o == path || Preferred(path, o) {
        OtherCandidate(t, qs, k, rest, o);
      }
    }
  }

  /** No two nodes are preferred to each other, so that this decides. */
  lemma {:induction false} PreferredOneWay(p: seq<string>, o: seq<string>)
    requires Preferred(p, o)
    ensures p != o && !Preferred(o, p)
  {
    var k: nat :| LiteralFirstAt(p, o, k);
    forall j: nat ensures !LiteralFirstAt(o, p, j) {
      if j < k && j < |p| && j < |o| {
        assert p[..k][j] == o[..k][j];
      }
      if k < j <= |p| && j <= |o| && o[..j] == p[..j] {
        assert false;
      }
    }
  }
}
