/** gee/router.go: the table of routes, one trie per method and one map of handlers. */
module Router {
  import opened Linearizability
  import opened Paths
  import opened Params
  import opened TrieNode
  import opened RouteTable
  import Trie

  datatype Route<H> = Route(method_: string, pattern: string, handler: H)

  /** router.go:46. */
  function Key(method_: string, pattern: string): string {
    method_ + "-" + pattern
  }

  /** The patterns registered for a method, in order. */
  function Patterns<H>(routes: seq<Route<H>>, method_: string): seq<string> {
    if routes == [] then []
    else
      var n := |routes| - 1;
      Patterns(routes[..n], method_) + if routes[n].method_ == method_ then [routes[n].pattern] else []
  }

  function Handlers<H>(routes: seq<Route<H>>): map<string, H> {
    if routes == [] then map[]
    else
      var n := |routes| - 1;
      Handlers(routes[..n])[Key(routes[n].method_, routes[n].pattern) := routes[n].handler]
  }

  /** What one more route changes. */
  lemma {:induction false} Registered<H>(routes: seq<Route<H>>, r: Route<H>)
    ensures Handlers(routes + [r]) == Handlers(routes)[Key(r.method_, r.pattern) := r.handler]
    ensures forall m | m != r.method_ :: Patterns(routes + [r], m) == Patterns(routes, m)
    ensures Tree(Patterns(routes + [r], r.method_)) ==
      Trie.Insert(Tree(Patterns(routes, r.method_)), r.pattern, Parse(r.pattern))
  {
    assert (routes + [r])[..|routes|] == routes;
    var rs := Patterns(routes, r.method_);
    assert (rs + [r.pattern])[..|rs|] == rs;
  }

  lemma {:induction false} EmptyTree()
    ensures Tree([]) == Trie.Node("", "", [])
  {
  }

  /** A pattern that is in a method's trie has a handler. */
  lemma {:induction false} HasHandler<H>(routes: seq<Route<H>>, method_: string, pattern: string)
    requires pattern in Patterns(routes, method_)
    ensures Key(method_, pattern) in Handlers(routes)
  {
    var n := |routes| - 1;
    if !(routes[n].method_ == method_ && routes[n].pattern == pattern) {
      HasHandler(routes[..n], method_, pattern);
    }
  }

  /** Keys tell routes apart as long as methods have no dash. */
  lemma {:induction false} KeyUnique(m: string, p: string, m': string, p': string)
    requires '-' !in m && '-' !in m' && Key(m, p) == Key(m', p')
    ensures m == m' && p == p'
  {
    var k := Key(m, p);
    assert k[|m|] == '-' && k[|m'|] == '-';
    assert forall i | 0 <= i < |m| :: k[i] == m[i];
    assert forall i | 0 <= i < |m'| :: k[i] == m'[i];
    assert |m| == |m'|;
    assert m == k[..|m|] && m' == k[..|m|] && p == k[|m| + 1..] && p' == k[|m| + 1..];
  }

  /** The handler of a route is the one that was registered for it last. */
  lemma {:induction false} LastHandler<H>(routes: seq<Route<H>>, i: nat)
    requires i < |routes| && forall j | 0 <= j < |routes| :: '-' !in routes[j].method_
    requires forall j | i < j < |routes| :: !(routes[j].method_ == routes[i].method_ && routes[j].pattern == routes[i].pattern)
    ensures Key(routes[i].method_, routes[i].pattern) in Handlers(routes)
    ensures Handlers(routes)[Key(routes[i].method_, routes[i].pattern)] == routes[i].handler
  {
    hide Key;
    var n := |routes| - 1;
    if i < n {
      LastHandler(routes[..n], i);
      if Key(routes[n].method_, routes[n].pattern) == Key(routes[i].method_, routes[i].pattern) {
        KeyUnique(routes[n].method_, routes[n].pattern, routes[i].method_, routes[i].pattern);
      }
    }
  }

  class Router<H> {
    var roots: map<string, Node>
    var handlers: map<string, H>
    /** Everything registered so far. */
    ghost var routes: seq<Route<H>>
    ghost var repr: set<Node>

    /** The tries are valid and share no node. */
    ghost predicate Separate()
      reads `roots, `repr, repr
    {
      && (forall m | m in roots :: roots[m] in repr && roots[m] in roots[m].repr && roots[m].repr <= repr && roots[m].Valid())
      && (forall m, m' | m in roots && m' in roots && m != m' :: roots[m].repr !! roots[m'].repr)
    }

    ghost predicate Valid()
      reads this, repr
    {
      && Separate()
      && (forall m | m in roots :: roots[m].tree == Tree(Patterns(routes, m)))
      && (forall m | m !in roots :: Patterns(routes, m) == [])
      && handlers == Handlers(routes)
    }

    constructor ()
      ensures Valid() && fresh(repr) && routes == []
    {
      roots, handlers, routes, repr := map[], map[], [], {};
    }

    /** router.go:35-39. */
    method AddRoot(method_: string)
      requires Separate() && method_ !in roots
      modifies `roots, `repr
      ensures Separate() && fresh(repr - old(repr)) && old(repr) <= repr
      ensures roots.Keys == old(roots).Keys + {method_} && roots[method_].tree == Trie.Node("", "", [])
      ensures forall m | m in old(roots) :: roots[m] == old(roots)[m] && roots[m].tree == old(roots[m].tree)
    {
      hide Node.Valid;
      var root := new Node("");
      roots := roots[method_ := root];
      repr := repr + root.repr;
    }

    /** router.go:42. */
    method InsertPattern(method_: string, pattern: string, parts: seq<string>)
      requires Separate() && method_ in roots && forall i | 0 <= i < |parts| :: parts[i] != ""
      modifies `repr, repr
      ensures Separate() && fresh(repr - old(repr)) && old(repr) <= repr
      ensures roots[method_].tree == Trie.Insert(old(roots[method_].tree), pattern, parts)
      ensures forall m | m in roots && m != method_ :: roots[m].tree == old(roots[m].tree)
    {
      hide Node.Valid, Trie.Insert;
      var root := roots[method_];
      assert parts[0..] == parts;
      root.Insert(pattern, parts, 0);
      repr := repr + root.repr;
    }

    /** router.go:35-42. */
    method Index(method_: string, pattern: string)
      requires Separate()
      modifies `roots, `repr, repr
      ensures Separate() && fresh(repr - old(repr)) && old(repr) <= repr
      ensures roots.Keys == old(roots).Keys + {method_}
      ensures roots[method_].tree == Trie.Insert(
        if method_ in old(roots) then old(roots[method_].tree) else Trie.Node("", "", []), pattern, Parse(pattern))
      ensures forall m | m in roots && m != method_ :: m in old(roots) && roots[m].tree == old(roots[m].tree)
    {
      hide Separate, Parse, Trie.Insert;
      if method_ !in roots {
        AddRoot(method_);
      }
      var parts := ParsePattern(pattern);
      ParseSegments(pattern);
      InsertPattern(method_, pattern, parts);
    }

    /** router.go:34-48. */
    method AddRoute(method_: string, pattern: string, handler: H)
      requires Valid()
      modifies this, repr
      ensures Valid() && fresh(repr - old(repr)) && old(repr) <= repr
      ensures routes == old(routes) + [Route(method_, pattern, handler)]
    {
      hide Patterns, Handlers, Tree, Separate, Parse, Trie.Insert, Key;
      Registered(routes, Route(method_, pattern, handler));
      EmptyTree();
      Index(method_, pattern);
      handlers := handlers[Key(method_, pattern) := handler];
      routes := routes + [Route(method_, pattern, handler)];
    }

    /** router.go:50-79. */
    method GetRoute(method_: string, path: string) returns (n: Node?, params: map<string, string>)
      requires Valid()
      ensures n == null <==> Trie.Search(Tree(Patterns(routes, method_)), Parse(path)).None?
      ensures n != null ==>
        && n in repr && Trie.Search(Tree(Patterns(routes, method_)), Parse(path)) == Some(n.pattern)
        && n.pattern in Patterns(routes, method_) && |Parse(n.pattern)| <= |Parse(path)|
        && params == ParamsOf(Parse(n.pattern), Parse(path))
      ensures n == null ==> params == map[]
    {
      var searchParts := ParsePattern(path);
      params := map[];
      if method_ !in roots {
        EmptySearch(searchParts);
        return null, params;
      }
      assert searchParts[0..] == searchParts;
      n := roots[method_].Search(searchParts, 0);
      if n == null {
        return;
      }
      FoundFitsPath(Patterns(routes, method_), searchParts);
      var parts := ParsePattern(n.pattern);
      ParseSegments(n.pattern);
      params := ExtractParams(parts, searchParts);
    }

    /** router.go:81-93: the handler that goes to the end of the chain, if the path is found. */
    method Handle(method_: string, path: string) returns (handler: Option<H>, params: map<string, string>)
      requires Valid()
      ensures var found := Trie.Search(Tree(Patterns(routes, method_)), Parse(path));
        && (handler.None? <==> found.None?)
        && (found.Some? ==>
              && Key(method_, found.value) in Handlers(routes)
              && handler == Some(Handlers(routes)[Key(method_, found.value)])
              && |Parse(found.value)| <= |Parse(path)|
              && params == ParamsOf(Parse(found.value), Parse(path)))
    {
      var n, ps := GetRoute(method_, path);
      params := ps;
      if n != null {
        HasHandler(routes, method_, n.pattern);
        handler := Some(handlers[Key(method_, n.pattern)]);
      } else {
        handler := None;
      }
    }
  }

  lemma {:induction false} EmptySearch(qs: seq<string>)
    ensures Trie.Search(Tree([]), qs).None?
  {
  }
}
