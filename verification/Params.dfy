/** gee/router.go:63-78: the parameters that a matched pattern takes from a path. */
module Params {
  import opened Paths
  import opened Trie
  import opened TrieLookup

  function Name(part: string): string
    requires part != ""
  {
    part[1..]
  }

  /** The parameters after the first `k` parts. */
  function ParamsUpTo(parts: seq<string>, qs: seq<string>, k: nat): map<string, string>
    requires k <= |parts| <= |qs|
  {
    if k == 0 then map[]
    else
      var params, part := ParamsUpTo(parts, qs, k - 1), parts[k - 1];
      if Colon(part) then params[Name(part) := qs[k - 1]]
      else if Star(part) && |part| > 1 then params[Name(part) := Join(qs[k - 1..])]
      else params
  }

  function ParamsOf(parts: seq<string>, qs: seq<string>): map<string, string>
    requires |parts| <= |qs|
  {
    ParamsUpTo(parts, qs, |parts|)
  }

  method ExtractParams(parts: seq<string>, searchParts: seq<string>) returns (params: map<string, string>)
    requires Segments(parts) && |parts| <= |searchParts|
    ensures params == ParamsOf(parts, searchParts)
  {
    params := map[];
    for index := 0 to |parts|
      invariant params == ParamsUpTo(parts, searchParts, index)
    {
      var part := parts[index];
      if part[0] == ':' {
        params := params[part[1..] := searchParts[index]];
      } else if part[0] == '*' && |part| > 1 {
        params := params[part[1..] := Join(searchParts[index..])];
        break;
      }
    }
  }

  // ----- the parameters of any pattern

  /** The part names a parameter: `:name`, also the empty one, or a star with a name. */
  predicate Names(part: string, name: string) {
    part == ":" + name || (part == "*" + name && name != "")
  }

  /** The last of the first `k` parts that names the parameter. */
  ghost predicate LastNaming(parts: seq<string>, k: nat, name: string, j: nat) {
    && j < k <= |parts| && Names(parts[j], name)
    && forall i | j < i < k :: !Names(parts[i], name)
  }

  /** A pattern gives a value to exactly the names that occur in it; where a name occurs more
      than once, the last part with it decides. */
  lemma {:induction false} ParamsExactly(parts: seq<string>, qs: seq<string>, k: nat, name: string)
    requires k <= |parts| <= |qs|
    ensures name in ParamsUpTo(parts, qs, k) <==> exists j: nat :: LastNaming(parts, k, name, j)
    ensures forall j: nat | LastNaming(parts, k, name, j) ::
      && name in ParamsUpTo(parts, qs, k)
      && ParamsUpTo(parts, qs, k)[name] == if Colon(parts[j]) then qs[j] else Join(qs[j..])
  {
    hide LastNaming, ParamsUpTo, Names, Colon;
    if k > 0 {
      ParamsExactly(parts, qs, k - 1, name);
    }
    ParamsStep(parts, qs, k, name);
    forall j: nat
      ensures LastNaming(parts, k, name, j) <==>
        k > 0 && if Names(parts[k - 1], name) then j == k - 1 else LastNaming(parts, k - 1, name, j)
    {
      NamingStep(parts, k, name, j);
    }
    if name in ParamsUpTo(parts, qs, k) {
      if Names(parts[k - 1], name) {
        assert LastNaming(parts, k, name, k - 1);
      } else {
        var j: nat :| LastNaming(parts, k - 1, name, j);
        assert LastNaming(parts, k, name, j);
      }
    }
  }

  lemma {:induction false} ParamsStep(parts: seq<string>, qs: seq<string>, k: nat, name: string)
    requires k <= |parts| <= |qs|
    ensures k == 0 ==> name !in ParamsUpTo(parts, qs, k)
    ensures k > 0 && Names(parts[k - 1], name) ==>
      && name in ParamsUpTo(parts, qs, k)
      && ParamsUpTo(parts, qs, k)[name] == if Colon(parts[k - 1]) then qs[k - 1] else Join(qs[k - 1..])
    ensures k > 0 && !Names(parts[k - 1], name) ==>
      && (name in ParamsUpTo(parts, qs, k) <==> name in ParamsUpTo(parts, qs, k - 1))
      && (name in ParamsUpTo(parts, qs, k) ==> ParamsUpTo(parts, qs, k)[name] == ParamsUpTo(parts, qs, k - 1)[name])
  {
  }

  lemma {:induction false} NamingStep(parts: seq<string>, k: nat, name: string, j: nat)
    requires k <= |parts|
    ensures LastNaming(parts, k, name, j) <==>
      k > 0 && if Names(parts[k - 1], name) then j == k - 1 else LastNaming(parts, k - 1, name, j)
  {
  }

  // ----- the parameters rebuild the path

  /** Names are not repeated, and a star has one. */
  predicate Named(parts: seq<string>) {
    && (forall i | 0 <= i < |parts| && Star(parts[i]) :: |parts[i]| > 1)
    && (forall i, j | 0 <= i < j < |parts| && Wild(parts[i]) && Wild(parts[j]) :: Name(parts[i]) != Name(parts[j]))
  }

  /** The pattern with the parameters put back. */
  function Substitute(parts: seq<string>, params: map<string, string>): (segs: seq<string>)
    ensures |segs| == |parts|
  {
    seq(|parts|, k requires 0 <= k < |parts| =>
      if Wild(parts[k]) && Name(parts[k]) in params then params[Name(parts[k])] else parts[k])
  }

  /** A parameter keeps the value that its part gave it. */
  lemma {:induction false} ParamValue(parts: seq<string>, qs: seq<string>, k: nat, i: nat)
    requires i < k <= |parts| <= |qs| && Named(parts) && Wild(parts[i])
    ensures Name(parts[i]) in ParamsUpTo(parts, qs, k)
    ensures ParamsUpTo(parts, qs, k)[Name(parts[i])] == if Colon(parts[i]) then qs[i] else Join(qs[i..])
  {
    if i < k - 1 {
      ParamValue(parts, qs, k - 1, i);
    }
  }

  lemma {:induction false} Substituted(parts: seq<string>, qs: seq<string>, i: nat)
    requires Matches(parts, qs) && Named(parts) && i < |parts|
    ensures Substitute(parts, ParamsOf(parts, qs))[i] == if Star(parts[i]) then Join(qs[i..]) else qs[i]
  {
    if Wild(parts[i]) {
      ParamValue(parts, qs, |parts|, i);
    } else {
      assert Fits(parts[i], qs[i]);
    }
  }

  /** Putting the parameters into the pattern rebuilds the path. */
  lemma {:induction false} Rebuilds(parts: seq<string>, qs: seq<string>)
    requires Matches(parts, qs) && Named(parts)
    ensures Join(Substitute(parts, ParamsOf(parts, qs))) == Join(qs)
  {
    hide ParamsOf, Substitute, Named, Fits;
    var segs, n := Substitute(parts, ParamsOf(parts, qs)), |parts|;
    forall i | 0 <= i < n ensures segs[i] == if Star(parts[i]) then Join(qs[i..]) else qs[i] {
      Substituted(parts, qs, i);
    }
    if EndsInStar(parts) {
      assert segs == qs[..n - 1] + [Join(qs[n - 1..])];
      JoinTail(qs[..n - 1], qs[n - 1..]);
      assert qs[..n - 1] + qs[n - 1..] == qs;
    } else {
      assert forall i | 0 <= i < n :: !Star(parts[i]);
      assert segs == qs;
    }
  }

  /** In terms of the path: the rebuilt one parses to the segments that were searched. */
  lemma {:induction false} RebuiltPath(pattern: string, path: string)
    requires Matches(Parse(pattern), Parse(path)) && Named(Parse(pattern))
    ensures Parse(Join(Substitute(Parse(pattern), ParamsOf(Parse(pattern), Parse(path))))) == Parse(path)
  {
    hide Parse, Matches, Named, Substitute, ParamsOf;
    assert |Parse(pattern)| <= |Parse(path)| by { MatchLength(Parse(pattern), Parse(path)); }
    Rebuilds(Parse(pattern), Parse(path));
    ParseSegments(path);
    ParseJoin(Parse(path));
  }

  lemma {:induction false} MatchLength(ps: seq<string>, qs: seq<string>)
    requires Matches(ps, qs)
    ensures |ps| <= |qs|
  {
  }
}
