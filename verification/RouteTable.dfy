/** gee/trie.go and gee/router.go: the trie of any sequence of registrations, against a scan of
    the registered patterns. */
module RouteTable {
  import opened Linearizability
  import opened Paths
  import opened Trie
  import opened TrieLookup

  /** The trie after registering `rs` in this order (router.go:34-43). */
  function Tree(rs: seq<string>): Trie {
    if rs == [] then Node("", "", [])
    else
      var n := |rs| - 1;
      Insert(Tree(rs[..n]), rs[n], Parse(rs[n]))
  }

  /** How the i-th registration is spelled in the trie: merged into wild nodes it meets. */
  function SpelledAs(rs: seq<string>, i: nat): (path: seq<string>)
    requires i < |rs|
    ensures |path| == |Parse(rs[i])|
    ensures forall k | 0 <= k < |path| :: path[k] == Parse(rs[i])[k] || Wild(path[k])
  {
    Spelling(Tree(rs[..i]), Parse(rs[i]))
  }

  /** The last registration that is spelled like this. */
  ghost predicate Winner(rs: seq<string>, i: nat, path: seq<string>) {
    i < |rs| && SpelledAs(rs, i) == path && forall j | i < j < |rs| :: SpelledAs(rs, j) != path
  }

  lemma {:induction false} TreeShaped(rs: seq<string>)
    ensures Shaped(Tree(rs)) && Tree(rs).part == ""
  {
    if rs != [] {
      var n := |rs| - 1;
      TreeShaped(rs[..n]);
      ParseSegments(rs[n]);
      assert rs[n] == "" ==> Parse(rs[n]) == [];
      InsertShaped(Tree(rs[..n]), rs[n], Parse(rs[n]));
      InsertKeepsPart(Tree(rs[..n]), rs[n], Parse(rs[n]));
    }
  }

  lemma {:induction false} SpelledInPrefix(rs: seq<string>, n: nat, i: nat)
    requires i < n <= |rs|
    ensures SpelledAs(rs[..n], i) == SpelledAs(rs, i) && rs[..n][i] == rs[i]
  {
    assert rs[..n][..i] == rs[..i];
  }

  lemma {:induction false} WinnerInPrefix(rs: seq<string>, rs': seq<string>, i: nat, path: seq<string>)
    requires rs != [] && rs' == rs[..|rs| - 1] && SpelledAs(rs, |rs| - 1) != path
    ensures Winner(rs, i, path) <==> Winner(rs', i, path)
  {
    hide SpelledAs;
    forall j | 0 <= j < |rs'| ensures SpelledAs(rs', j) == SpelledAs(rs, j) {
      SpelledInPrefix(rs, |rs'|, j);
    }
    if Winner(rs, i, path) {
      assert i != |rs'|;
    }
    if Winner(rs', i, path) {
      forall j | i < j < |rs| ensures SpelledAs(rs, j) != path {
        assert j < |rs'| ==> SpelledAs(rs', j) != path;
      }
    }
  }

  /** A node's pattern is the last one registered under its spelling. */
  lemma {:induction false} PatternAtTree(rs: seq<string>, path: seq<string>)
    ensures forall i: nat | Winner(rs, i, path) :: PatternAt(Tree(rs), path) == rs[i]
    ensures PatternAt(Tree(rs), path) != "" ==> exists i: nat :: Winner(rs, i, path)
  {
    hide Spelling, Insert, Parse, Shaped, PatternAt;
    if rs == [] {
      NothingRegistered(path);
    } else {
      var n := |rs| - 1;
      var rs' := rs[..n];
      TreeShaped(rs');
      PatternAtTree(rs', path);
      InsertAt(Tree(rs'), rs[n], Parse(rs[n]), path);
      if SpelledAs(rs, n) == path {
        assert Winner(rs, n, path);
      } else {
        forall i: nat ensures Winner(rs, i, path) <==> Winner(rs', i, path) {
          WinnerInPrefix(rs, rs', i, path);
        }
      }
    }
  }

  lemma {:induction false} NothingRegistered(path: seq<string>)
    ensures PatternAt(Tree([]), path) == ""
  {
  }

  lemma {:induction false} LastSpelled(rs: seq<string>, i: nat) returns (j: nat)
    requires i < |rs|
    ensures Winner(rs, j, SpelledAs(rs, i)) && i <= j
    decreases |rs| - i
  {
    hide SpelledAs;
    if j' :| i < j' < |rs| && SpelledAs(rs, j') == SpelledAs(rs, i) {
      j := LastSpelled(rs, j');
    } else {
      j := i;
    }
  }

  // ----- what a lookup finds, for every sequence of registrations

  /** What a lookup returns is the last registration under a spelling that matches. */
  lemma {:induction false} LookupSound(rs: seq<string>, qs: seq<string>) returns (i: nat)
    requires Search(Tree(rs), qs).Some?
    ensures i < |rs| && Winner(rs, i, SpelledAs(rs, i)) && Matches(SpelledAs(rs, i), qs)
    ensures Search(Tree(rs), qs) == Some(rs[i]) && rs[i] != ""
    ensures forall o | Candidate(Tree(rs), qs, o) :: o == SpelledAs(rs, i) || Preferred(SpelledAs(rs, i), o)
  {
    hide Candidate, Preferred;
    TreeShaped(rs);
    var path := SearchSound(Tree(rs), qs);
    PatternAtTree(rs, path);
    i :| Winner(rs, i, path);
  }

  /** Of the spellings that match, the lookup returns the one that is literal where it first
      differs from another. */
  lemma {:induction false} LookupPrefers(rs: seq<string>, qs: seq<string>, j: nat) returns (i: nat)
    requires NonEmpty(rs) && j < |rs| && Matches(SpelledAs(rs, j), qs)
    ensures i < |rs| && Matches(SpelledAs(rs, i), qs) && Search(Tree(rs), qs) == Some(rs[i])
    ensures SpelledAs(rs, j) == SpelledAs(rs, i) || Preferred(SpelledAs(rs, i), SpelledAs(rs, j))
  {
    hide Takes, SpelledAs, Search, Preferred, PatternAt;
    LookupComplete(rs, qs, j);
    i := LookupSound(rs, qs);
    var w := LastSpelled(rs, j);
    PatternAtTree(rs, SpelledAs(rs, j));
    assert Candidate(Tree(rs), qs, SpelledAs(rs, j));
  }

  /** A path that some spelling takes is found. */
  lemma {:induction false} LookupComplete(rs: seq<string>, qs: seq<string>, i: nat)
    requires NonEmpty(rs) && i < |rs| && Takes(SpelledAs(rs, i), qs)
    ensures Search(Tree(rs), qs).Some?
  {
    hide Takes, SpelledAs;
    TreeShaped(rs);
    var j := LastSpelled(rs, i);
    PatternAtTree(rs, SpelledAs(rs, i));
    SearchComplete(Tree(rs), qs, SpelledAs(rs, i));
  }

  predicate NonEmpty(rs: seq<string>) {
    forall i | 0 <= i < |rs| :: rs[i] != ""
  }

  /** The exact meaning of a lookup, merged registrations included. */
  lemma {:induction false} LookupIsScanOfSpellings(rs: seq<string>, qs: seq<string>)
    requires NonEmpty(rs)
    ensures Search(Tree(rs), qs).Some? <==> exists i | 0 <= i < |rs| :: Matches(SpelledAs(rs, i), qs)
  {
    hide Takes, SpelledAs, Search;
    if Search(Tree(rs), qs).Some? {
      var i := LookupSound(rs, qs);
    }
    if i :| 0 <= i < |rs| && Matches(SpelledAs(rs, i), qs) {
      LookupComplete(rs, qs, i);
    }
  }

  /** Every node's pattern was registered and parses to as many parts as the node is deep. */
  lemma {:induction false} PatternDepth(rs: seq<string>, path: seq<string>)
    requires PatternAt(Tree(rs), path) != ""
    ensures PatternAt(Tree(rs), path) in rs && |Parse(PatternAt(Tree(rs), path))| == |path|
  {
    PatternAtTree(rs, path);
    var i :| Winner(rs, i, path);
  }

  /** So a lookup never yields a pattern with more parts than the path, and what it yields was
      registered. */
  lemma {:induction false} FoundFitsPath(rs: seq<string>, qs: seq<string>)
    requires Search(Tree(rs), qs).Some?
    ensures var p := Search(Tree(rs), qs).value;
      p in rs && p != "" && |Parse(p)| <= |qs|
  {
    var i := LookupSound(rs, qs);
  }

  /** A path that matches a registered pattern without star is found, whatever was merged. */
  lemma {:induction false} StarFreeFound(rs: seq<string>, qs: seq<string>, i: nat)
    requires NonEmpty(rs) && i < |rs| && Matches(Parse(rs[i]), qs) && !EndsInStar(Parse(rs[i]))
    ensures Search(Tree(rs), qs).Some?
  {
    hide Search, Tree;
    LookupComplete(rs, qs, i);
  }
}
