/** gee/trie.go:14: two tables in which a registration merges into a wild node, and what the
    lookup then gets wrong. */
module RouteExamples {
  import opened Linearizability
  import opened Paths
  import opened Trie
  import opened TrieLookup
  import opened RouteTable
  import opened RouteExactness

  const STAR_ROUTE := "/" + "*x"

  lemma {:induction false} ParseOne(seg: string)
    requires seg != "" && '/' !in seg
    ensures Parse("/" + seg) == [seg]
  {
    SplitHead("", seg);
    SplitHead(seg, "");
    assert "" + "/" + seg == "/" + seg;
    assert Parts([""] + [seg]) == Parts([seg]);
    assert Parts([seg]) == [seg];
  }

  lemma {:induction false} TwoRegistrations(p: string, q: string, a: string, b: string)
    requires p != "" && q != "" && Parse(p) == [a] && Parse(q) == [b] && Wild(a)
    ensures Tree([p, q]) == Node("", "", [Node(q, a, [])])
  {
    assert [p, q][..1] == [p] && [p][..0] == [];
    var one := Node("", "", [Node(p, a, [])]);
    assert Insert(Node("", a, []), p, [a][1..]) == Node(p, a, []);
    assert Tree([p]) == one;
    assert Insert(Node(p, a, []), q, [b][1..]) == Node(q, a, []);
  }

  /** `/b` registered after `/:a` takes its place: every one-segment path is then answered with
      `/b`, which does not match it. */
  lemma {:induction false} LiteralIntoWild()
    ensures Search(Tree(["/:a", "/b"]), Parse("/x")) == Some("/b")
    ensures !Matches(Parse("/b"), Parse("/x")) && !AgreesOn(["/:a", "/b"], "/x")
  {
    hide Parse, Tree;
    ParseOne(":a");
    ParseOne("b");
    ParseOne("x");
    assert "/" + ":a" == "/:a" && "/" + "b" == "/b" && "/" + "x" == "/x";
    TwoRegistrations("/:a", "/b", ":a", "b");
    assert Search(Node("/b", ":a", []), ["x"][1..]) == Some("/b");
  }

  /** A star registered after `/:b` gets a node that takes one segment only: longer paths are
      not found. */
  lemma {:induction false} StarIntoColon()
    ensures Search(Tree(["/:b", STAR_ROUTE]), Parse("/p/q")).None?
    ensures Matches(Parse(STAR_ROUTE), Parse("/p/q")) && !AgreesOn(["/:b", STAR_ROUTE], "/p/q")
  {
    hide Parse, Tree;
    ParseOne(":b");
    ParseOne("*x");
    assert "/" + ":b" == "/:b";
    ParseTwo();
    TwoRegistrations("/:b", STAR_ROUTE, ":b", "*x");
    assert Search(Node(STAR_ROUTE, ":b", []), ["p", "q"][1..]).None?;
    assert Matches(Parse(["/:b", STAR_ROUTE][1]), Parse("/p/q"));
  }

  lemma {:induction false} ParseTwo()
    ensures Parse("/p/q") == ["p", "q"]
  {
    SplitHead("", "p/q");
    SplitHead("p", "q");
    SplitHead("q", "");
    assert "" + "/" + "p/q" == "/p/q" && "p" + "/" + "q" == "p/q";
    assert Split("/p/q") == [""] + (["p"] + ["q"]);
    assert ([""] + (["p"] + ["q"]))[1..] == ["p"] + ["q"] && (["p"] + ["q"])[1..] == ["q"] && ["q"][1..] == [];
    assert Parts(["q"]) == ["q"] && Parts(["p"] + ["q"]) == ["p"] + ["q"];
  }
}
