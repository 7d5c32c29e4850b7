/** gee/router.go:20-32: a pattern or a path as the list of its parts. */
module Paths {
  /** strings.Split(s, "/"). */
  function Split(s: string): (vs: seq<string>)
    ensures |vs| > 0
  {
    if s == "" then [""]
    else if s[0] == '/' then [""] + Split(s[1..])
    else var vs := Split(s[1..]); [[s[0]] + vs[0]] + vs[1..]
  }

  /** strings.Join(segs, "/"). */
  function Join(segs: seq<string>): string {
    if segs == [] then "" else if |segs| == 1 then segs[0] else segs[0] + "/" + Join(segs[1..])
  }

  predicate Star(part: string) {
    part != "" && part[0] == '*'
  }

  predicate Colon(part: string) {
    part != "" && part[0] == ':'
  }

  predicate Wild(part: string) {
    Star(part) || Colon(part)
  }

  /** The pieces that count: no empty ones, and none after a star. */
  function Parts(vs: seq<string>): seq<string> {
    if vs == [] then []
    else if vs[0] == "" then Parts(vs[1..])
    else if Star(vs[0]) then [vs[0]]
    else [vs[0]] + Parts(vs[1..])
  }

  function Parse(pattern: string): seq<string> {
    Parts(Split(pattern))
  }

  method ParsePattern(pattern: string) returns (parts: seq<string>)
    ensures parts == Parse(pattern)
  {
    var vs := Split(pattern);
    parts := [];
    for i := 0 to |vs|
      invariant parts + Parts(vs[i..]) == Parse(pattern)
    {
      var item := vs[i];
      assert vs[i..][1..] == vs[i + 1..];
      if |item| > 0 {
        parts := parts + [item];
        if item[0] == '*' {
          break;
        }
      }
    }
  }

  /** What a parsed pattern looks like: pieces of a path, with a star at most at the end. */
  predicate Segments(ps: seq<string>) {
    forall k | 0 <= k < |ps| :: ps[k] != "" && '/' !in ps[k] && (Star(ps[k]) ==> k == |ps| - 1)
  }

  predicate NoSlash(vs: seq<string>) {
    forall k | 0 <= k < |vs| :: '/' !in vs[k]
  }

  lemma {:induction false} SplitNoSlash(s: string)
    ensures NoSlash(Split(s))
  {
    if s != "" {
      SplitNoSlash(s[1..]);
    }
  }

  lemma {:induction false} PartsSegments(vs: seq<string>)
    requires NoSlash(vs)
    ensures Segments(Parts(vs))
  {
    if vs != [] {
      PartsSegments(vs[1..]);
    }
  }

  lemma {:induction false} ParseSegments(pattern: string)
    ensures Segments(Parse(pattern))
  {
    SplitNoSlash(pattern);
    PartsSegments(Split(pattern));
  }

  /** Splitting loses nothing. */
  lemma {:induction false} JoinSplit(s: string)
    ensures Join(Split(s)) == s
  {
    if s != "" {
      var vs := Split(s[1..]);
      JoinSplit(s[1..]);
      if s[0] == '/' {
        assert ([""] + vs)[1..] == vs;
        assert Join([""] + vs) == "" + "/" + Join(vs) == ['/'] + s[1..];
      } else {
        assert ([[s[0]] + vs[0]] + vs[1..])[1..] == vs[1..];
        assert Join([[s[0]] + vs[0]] + vs[1..]) == [s[0]] + Join(vs);
      }
    }
  }

  lemma {:induction false} SplitHead(a: string, s: string)
    requires '/' !in a
    ensures Split(a + "/" + s) == [a] + Split(s)
    ensures Split(a) == [a]
  {
    if a == "" {
      assert a + "/" + s == "/" + s;
      assert ("/" + s)[1..] == s;
    } else {
      SplitHead(a[1..], s);
      assert (a + "/" + s)[1..] == a[1..] + "/" + s;
      assert [a[0]] + a[1..] == a;
    }
  }

  lemma {:induction false} SplitJoin(vs: seq<string>)
    requires vs != [] && NoSlash(vs)
    ensures Split(Join(vs)) == vs
  {
    hide Split;
    if |vs| == 1 {
      SplitHead(vs[0], "");
    } else {
      SplitJoin(vs[1..]);
      SplitHead(vs[0], Join(vs[1..]));
    }
  }

  lemma {:induction false} PartsOfSegments(ps: seq<string>)
    requires Segments(ps)
    ensures Parts(ps) == ps
  {
    if ps != [] {
      assert forall k | 0 <= k < |ps| - 1 :: ps[1..][k] == ps[k + 1];
      PartsOfSegments(ps[1..]);
    }
  }

  /** Every list of this form is what some path parses to. */
  lemma {:induction false} ParseJoin(ps: seq<string>)
    requires Segments(ps)
    ensures Parse(Join(ps)) == ps
  {
    if ps != [] {
      SplitJoin(ps);
      PartsOfSegments(ps);
    }
  }

  lemma {:induction false} JoinTail(a: seq<string>, b: seq<string>)
    requires b != []
    ensures Join(a + [Join(b)]) == Join(a + b)
  {
    if a == [] {
      assert a + [Join(b)] == [Join(b)] && a + b == b;
    } else {
      JoinTail(a[1..], b);
      assert (a + [Join(b)])[1..] == a[1..] + [Join(b)];
      assert (a + b)[1..] == a[1..] + b;
    }
  }
}
