/** gee/trie.go: the trie as a value, what registering a pattern does to it and what a lookup
    finds in it. */
module Trie {
  import opened Linearizability
  import opened Paths

  /** A node is wild exactly when its part is. */
  datatype Trie = Node(pattern: string, part: string, children: seq<Trie>)

  /** Whether a node takes a path segment: spelled the same, or wild. */
  predicate Fits(part: string, seg: string) {
    part == seg || Wild(part)
  }

  /** trie.go:12-19: the first child that fits, or the number of children. */
  function FirstFit(cs: seq<Trie>, seg: string): (k: nat)
    ensures k <= |cs| && (k < |cs| ==> Fits(cs[k].part, seg))
    ensures forall j | 0 <= j < k :: !Fits(cs[j].part, seg)
  {
    if cs == [] then 0
    else if Fits(cs[0].part, seg) then 0
    else 1 + FirstFit(cs[1..], seg)
  }

  /** trie.go:31-46. */
  function Insert(t: Trie, pattern: string, parts: seq<string>): Trie
    decreases |parts|
  {
    if parts == [] then t.(pattern := pattern)
    else
      var k := FirstFit(t.children, parts[0]);
      if k < |t.children| then t.(children := t.children[k := Insert(t.children[k], pattern, parts[1..])])
      else t.(children := t.children + [Insert(Node("", parts[0], []), pattern, parts[1..])])
  }

  /** trie.go:48-65: the pattern of the node that a lookup finds. */
  function Search(t: Trie, qs: seq<string>): Option<string>
    decreases |qs|, 1, 0
  {
    if qs == [] || Star(t.part) then if t.pattern == "" then None else Some(t.pattern)
    else SearchChildren(t.children, qs)
  }

  function SearchChildren(cs: seq<Trie>, qs: seq<string>): Option<string>
    requires qs != []
    decreases |qs|, 0, |cs|
  {
    if cs == [] then None
    else if Fits(cs[0].part, qs[0]) && Search(cs[0], qs[1..]).Some? then Search(cs[0], qs[1..])
    else SearchChildren(cs[1..], qs)
  }

  // ----- what a trie holds

  /** The parts of the nodes that a registration goes through: its own, except where it runs
      into a wild node. */
  function Spelling(t: Trie, parts: seq<string>): (path: seq<string>)
    ensures |path| == |parts|
    ensures forall k | 0 <= k < |parts| :: path[k] == parts[k] || Wild(path[k])
    decreases |parts|
  {
    if parts == [] then []
    else
      var k := FirstFit(t.children, parts[0]);
      if k < |t.children| then [t.children[k].part] + Spelling(t.children[k], parts[1..]) else parts
  }

  function ChildNamed(cs: seq<Trie>, part: string): (k: nat)
    ensures k <= |cs| && (k < |cs| ==> cs[k].part == part)
    ensures forall j | 0 <= j < k :: cs[j].part != part
  {
    if cs == [] then 0
    else if cs[0].part == part then 0
    else 1 + ChildNamed(cs[1..], part)
  }

  /** The pattern of the node with these parts on the way to it; "" if there is none. */
  function PatternAt(t: Trie, path: seq<string>): string
    decreases |path|
  {
    if path == [] then t.pattern
    else
      var k := ChildNamed(t.children, path[0]);
      if k < |t.children| then PatternAt(t.children[k], path[1..]) else ""
  }

  /** What every registration keeps: no child fits the part of a later sibling, so that parts
      are distinct and a wild child comes last; and a star node always has a pattern. */
  predicate Shaped(t: Trie) {
    && (forall i | 0 <= i < |t.children| :: Shaped(t.children[i]) && Proper(t.children[i]))
    && (forall i, j | 0 <= i < j < |t.children| :: !Fits(t.children[i].part, t.children[j].part))
  }

  predicate Proper(c: Trie) {
    c.part != "" && (Star(c.part) ==> c.pattern != "")
  }

  // ----- registering

  lemma {:induction false} InsertKeepsPart(t: Trie, pattern: string, parts: seq<string>)
    ensures Insert(t, pattern, parts).part == t.part
  {
  }

  lemma {:induction false} InsertShaped(t: Trie, pattern: string, parts: seq<string>)
    requires Shaped(t) && Segments(parts) && (parts != [] ==> pattern != "")
    ensures Shaped(Insert(t, pattern, parts))
    decreases |parts|
  {
    if parts != [] {
      var k := FirstFit(t.children, parts[0]);
      var c := if k < |t.children| then t.children[k] else Node("", parts[0], []);
      assert Segments(parts[1..]) by { SegmentsTail(parts); }
      InsertShaped(c, pattern, parts[1..]);
      InsertKeepsPart(c, pattern, parts[1..]);
      InsertProper(c, pattern, parts);
    }
  }

  lemma {:induction false} SegmentsTail(parts: seq<string>)
    requires Segments(parts) && parts != []
    ensures Segments(parts[1..]) && (Star(parts[0]) ==> parts[1..] == [])
  {
    assert forall k | 0 <= k < |parts| - 1 :: parts[1..][k] == parts[k + 1];
  }

  /** A star node gets its pattern when it is made and never loses it. */
  lemma {:induction false} InsertProper(c: Trie, pattern: string, parts: seq<string>)
    requires Segments(parts) && parts != [] && pattern != ""
    requires Proper(c) || c == Node("", parts[0], [])
    ensures Proper(Insert(c, pattern, parts[1..]))
  {
    SegmentsTail(parts);
    InsertKeepsPart(c, pattern, parts[1..]);
  }

  /** The node that a registration of `parts` goes to next. */
  function NextNode(t: Trie, parts: seq<string>): Trie
    requires parts != []
  {
    var k := FirstFit(t.children, parts[0]);
    if k < |t.children| then t.children[k] else Node("", parts[0], [])
  }

  lemma {:induction false} NextNodeShaped(t: Trie, parts: seq<string>)
    requires Shaped(t) && parts != []
    ensures Shaped(NextNode(t, parts))
  {
  }

  /** One level of a registration, seen by the parts on the way. */
  lemma {:induction false} InsertLevel(t: Trie, pattern: string, parts: seq<string>, path: seq<string>)
    requires Shaped(t) && parts != [] && path != []
    ensures var c := NextNode(t, parts);
      if path[0] == c.part
      then PatternAt(Insert(t, pattern, parts), path) == PatternAt(Insert(c, pattern, parts[1..]), path[1..])
      else PatternAt(Insert(t, pattern, parts), path) == PatternAt(t, path)
    ensures path[0] == NextNode(t, parts).part ==> PatternAt(t, path) == PatternAt(NextNode(t, parts), path[1..])
  {
    hide Spelling, Wild;
    var k := FirstFit(t.children, parts[0]);
    var c := NextNode(t, parts);
    var cs := Insert(t, pattern, parts).children;
    InsertKeepsPart(c, pattern, parts[1..]);
    assert forall i | 0 <= i < |t.children| && i != k :: cs[i] == t.children[i];
    NamedAfter(t.children, cs, k, path[0]);
  }

  lemma {:induction false} SpellingLevel(t: Trie, parts: seq<string>)
    requires parts != []
    ensures Spelling(t, parts) == [NextNode(t, parts).part] + Spelling(NextNode(t, parts), parts[1..])
  {
    assert parts == [parts[0]] + parts[1..];
    EmptySpelling(parts);
  }

  /** Registering changes the pattern of one node, the one it is spelled as. */
  lemma {:induction false} InsertAt(t: Trie, pattern: string, parts: seq<string>, path: seq<string>)
    requires Shaped(t)
    ensures PatternAt(Insert(t, pattern, parts), path) ==
      if path == Spelling(t, parts) then pattern else PatternAt(t, path)
    decreases |parts|
  {
    if parts == [] || path == [] {
      InsertAtRoot(t, pattern, parts, path);
    } else {
      InsertBelow(t, pattern, parts, path);
    }
  }

  lemma {:induction false} InsertAtRoot(t: Trie, pattern: string, parts: seq<string>, path: seq<string>)
    requires parts == [] || path == []
    ensures PatternAt(Insert(t, pattern, parts), path) ==
      if path == Spelling(t, parts) then pattern else PatternAt(t, path)
  {
  }

  lemma {:induction false} InsertBelow(t: Trie, pattern: string, parts: seq<string>, path: seq<string>)
    requires Shaped(t) && parts != [] && path != []
    ensures PatternAt(Insert(t, pattern, parts), path) ==
      if path == Spelling(t, parts) then pattern else PatternAt(t, path)
    decreases |parts|, 0
  {
    hide Shaped, Insert, PatternAt, Spelling, NextNode;
    var c := NextNode(t, parts);
    NextNodeShaped(t, parts);
    InsertLevel(t, pattern, parts, path);
    SpellingLevel(t, parts);
    assert path == [path[0]] + path[1..];
    assert Spelling(t, parts)[1..] == Spelling(c, parts[1..]);
    if path[0] == c.part {
      InsertAt(c, pattern, parts[1..], path[1..]);
    }
  }

  lemma {:induction false} EmptySpelling(parts: seq<string>)
    requires parts != []
    ensures Spelling(Node("", parts[0], []), parts[1..]) == parts[1..]
    ensures forall path :: path != [] ==> PatternAt(Node("", parts[0], []), path) == ""
  {
  }

  lemma {:induction false} NamedAfter(cs: seq<Trie>, cs': seq<Trie>, k: nat, part: string)
    requires forall i, j | 0 <= i < j < |cs| :: !Fits(cs[i].part, cs[j].part)
    requires k <= |cs| && |cs'| == (if k < |cs| then |cs| else |cs| + 1)
    requires forall i | 0 <= i < |cs| :: cs'[i].part == cs[i].part
    requires k == |cs| ==> forall i | 0 <= i < |cs| :: !Fits(cs[i].part, cs'[k].part)
    ensures cs'[k].part == part ==> ChildNamed(cs', part) == k && ChildNamed(cs, part) == k
    ensures cs'[k].part != part && ChildNamed(cs, part) < |cs| ==>
      ChildNamed(cs', part) == ChildNamed(cs, part) != k
    ensures cs'[k].part != part && ChildNamed(cs, part) == |cs| ==> ChildNamed(cs', part) == |cs'|
  {
  }
}
