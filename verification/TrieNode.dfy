/** gee/trie.go: the nodes as they are updated in place, each with the trie that it is the root
    of. */
module TrieNode {
  import opened Linearizability
  import opened Paths
  import T = Trie

  /** The children that fit a segment, in order. */
  function Fitting(cs: seq<T.Trie>, seg: string): seq<T.Trie> {
    if cs == [] then []
    else (if T.Fits(cs[0].part, seg) then [cs[0]] else []) + Fitting(cs[1..], seg)
  }

  lemma {:induction false} FittingAppend(cs: seq<T.Trie>, c: T.Trie, seg: string)
    ensures Fitting(cs + [c], seg) == Fitting(cs, seg) + if T.Fits(c.part, seg) then [c] else []
  {
    if cs == [] {
      assert cs + [c] == [c] && [c][1..] == [];
    } else {
      FittingAppend(cs[1..], c, seg);
      assert (cs + [c])[1..] == cs[1..] + [c];
    }
  }

  /** Looking only at the children that fit changes nothing. */
  lemma {:induction false} SearchFitting(cs: seq<T.Trie>, qs: seq<string>)
    requires qs != []
    ensures T.SearchChildren(Fitting(cs, qs[0]), qs) == T.SearchChildren(cs, qs)
    decreases |cs|
  {
    if cs != [] {
      SearchFitting(cs[1..], qs);
      if T.Fits(cs[0].part, qs[0]) {
        assert ([cs[0]] + Fitting(cs[1..], qs[0]))[1..] == Fitting(cs[1..], qs[0]);
      } else {
        assert Fitting(cs, qs[0]) == Fitting(cs[1..], qs[0]);
      }
    }
  }

  class Node {
    var pattern: string
    const part: string
    var children: seq<Node>
    const isWild: bool
    ghost var tree: T.Trie
    ghost var repr: set<Node>

    ghost predicate Valid()
      reads this, repr
      decreases repr
    {
      && this in repr && isWild == Wild(part)
      && (forall i | 0 <= i < |children| ::
            children[i] in repr && children[i].repr < repr && this !in children[i].repr && children[i].Valid())
      && (forall i, j | 0 <= i < j < |children| :: children[i].repr !! children[j].repr)
      && tree.pattern == pattern && tree.part == part && |tree.children| == |children|
      && (forall i | 0 <= i < |children| :: tree.children[i] == children[i].tree)
    }

    constructor (part: string)
      ensures Valid() && fresh(repr) && tree == T.Node("", part, []) && repr == {this}
    {
      pattern, this.part, children, isWild := "", part, [], Wild(part);
      tree, repr := T.Node("", part, []), {this};
    }

    /** trie.go:12-19. */
    method MatchChild(part: string) returns (k: nat)
      requires Valid()
      ensures k == T.FirstFit(tree.children, part)
    {
      k := 0;
      while k < |children|
        invariant k <= |children| && forall j | 0 <= j < k :: !T.Fits(tree.children[j].part, part)
      {
        if children[k].part == part || children[k].isWild {
          return;
        }
        k := k + 1;
      }
    }

    /** trie.go:21-29. */
    method MatchChildren(part: string) returns (nodes: seq<Node>)
      requires Valid()
      ensures |nodes| == |Fitting(tree.children, part)|
      ensures forall i | 0 <= i < |nodes| :: nodes[i] in children && nodes[i].tree == Fitting(tree.children, part)[i]
    {
      nodes := [];
      for i := 0 to |children|
        invariant |nodes| == |Fitting(tree.children[..i], part)|
        invariant forall j | 0 <= j < |nodes| :: nodes[j] in children && nodes[j].tree == Fitting(tree.children[..i], part)[j]
      {
        FittingAppend(tree.children[..i], tree.children[i], part);
        assert tree.children[..i + 1] == tree.children[..i] + [tree.children[i]];
        if children[i].part == part || children[i].isWild {
          nodes := nodes + [children[i]];
        }
      }
      assert tree.children[..|children|] == tree.children;
    }

    /** trie.go:39-43. */
    method AddChild(part: string) returns (child: Node)
      requires Valid()
      modifies this
      ensures Valid() && fresh(repr - old(repr)) && old(repr) <= repr
      ensures children == old(children) + [child] && pattern == old(pattern)
      ensures tree == old(tree).(children := old(tree).children + [T.Node("", part, [])])
    {
      child := new Node(part);
      children := children + [child];
      tree := tree.(children := tree.children + [child.tree]);
      repr := repr + child.repr;
    }

    /** The rest of a registration, below child `k`: the other children are not touched. */
    method InsertChild(k: nat, pattern: string, parts: seq<string>, height: nat)
      requires Valid() && k < |children| && height <= |parts| && forall i | 0 <= i < |parts| :: parts[i] != ""
      modifies children[k].repr
      ensures forall i | 0 <= i < |children| :: children[i].Valid() && children[i] in children[i].repr
      ensures forall i | 0 <= i < |children| && i != k ::
        children[i].repr == old(children[i].repr) && children[i].tree == old(children[i].tree)
      ensures fresh(children[k].repr - old(children[k].repr)) && old(children[k].repr) <= children[k].repr
      ensures children[k].tree == T.Insert(old(children[k].tree), pattern, parts[height..])
      decreases |parts| - height, 1
    {
      hide T.Insert, Wild;
      assert forall i | 0 <= i < |children| && i != k :: children[i] in children[i].repr && children[i].repr !! children[k].repr;
      children[k].Insert(pattern, parts, height);
    }

    /** The registration goes on below child `k`. */
    method InsertBelow(k: nat, pattern: string, parts: seq<string>, height: nat)
      requires Valid() && k < |children| && height <= |parts| && forall i | 0 <= i < |parts| :: parts[i] != ""
      modifies repr
      ensures Valid() && fresh(repr - old(repr)) && old(repr) <= repr
      ensures tree == old(tree).(children := old(tree).children[k := T.Insert(old(tree).children[k], pattern, parts[height..])])
      decreases |parts| - height, 2
    {
      hide T.Insert, Wild;
      InsertChild(k, pattern, parts, height);
      tree := tree.(children := tree.children[k := children[k].tree]);
      repr := repr + children[k].repr;
    }

    /** trie.go:31-46. */
    method Insert(pattern: string, parts: seq<string>, height: nat)
      requires Valid() && height <= |parts| && forall i | 0 <= i < |parts| :: parts[i] != ""
      modifies repr
      ensures Valid() && fresh(repr - old(repr)) && old(repr) <= repr
      ensures tree == T.Insert(old(tree), pattern, parts[height..])
      decreases |parts| - height, 0
    {
      hide T.Fits, Wild;
      if height == |parts| {
        this.pattern := pattern;
        tree := tree.(pattern := pattern);
        return;
      }
      var part := parts[height];
      assert parts[height..][0] == part && parts[height..][1..] == parts[height + 1..];
      var k := MatchChild(part);
      if k == |children| {
        var _ := AddChild(part);
      }
      InsertBelow(k, pattern, parts, height + 1);
    }

    /** trie.go:48-65. */
    method Search(parts: seq<string>, height: nat) returns (n: Node?)
      requires Valid() && height <= |parts|
      ensures n == null <==> T.Search(tree, parts[height..]).None?
      ensures n != null ==> n in repr && T.Search(tree, parts[height..]) == Some(n.pattern)
      decreases |parts| - height
    {
      hide Fitting, Wild, T.Fits;
      if height == |parts| || Star(this.part) {
        return if pattern == "" then null else this;
      }
      ghost var qs := parts[height..];
      assert qs[0] == parts[height] && qs[1..] == parts[height + 1..];
      var nodes := MatchChildren(parts[height]);
      ghost var fits := Fitting(tree.children, parts[height]);
      SearchFitting(tree.children, qs);
      for i := 0 to |nodes|
        invariant T.SearchChildren(fits[i..], qs) == T.Search(tree, qs)
      {
        FittingFits(tree.children, parts[height], i);
        assert fits[i..][0] == nodes[i].tree && fits[i..][1..] == fits[i + 1..];
        var res := nodes[i].Search(parts, height + 1);
        if res != null {
          return res;
        }
      }
      return null;
    }
  }

  lemma {:induction false} FittingFits(cs: seq<T.Trie>, seg: string, i: nat)
    requires i < |Fitting(cs, seg)|
    ensures T.Fits(Fitting(cs, seg)[i].part, seg)
  {
    if T.Fits(cs[0].part, seg) {
      if i > 0 {
        FittingFits(cs[1..], seg, i - 1);
      }
    } else {
      FittingFits(cs[1..], seg, i);
    }
  }
}
