/** The search ends, whatever the cache holds.  Read the positions of the stacked calls and of
    the cursor as the digits of a number, most significant first: every move increases it. */
module Termination {
  import opened Linearizability
  import opened Search

  function Pow(base: nat, levels: nat): nat {
    if levels == 0 then 1 else base * Pow(base, levels - 1)
  }

  function Rank(digits: seq<nat>, base: nat, levels: nat): nat {
    if levels == 0 || digits == [] then 0
    else digits[0] * Pow(base, levels - 1) + Rank(digits[1..], base, levels - 1)
  }

  ghost predicate Digits(ds: seq<nat>, base: nat) {
    forall i | 0 <= i < |ds| :: ds[i] < base
  }

  lemma {:induction false} RankBound(ds: seq<nat>, base: nat, levels: nat)
    requires Digits(ds, base) && base > 0
    ensures Rank(ds, base, levels) < Pow(base, levels)
    decreases levels
  {
    if levels == 0 {
    } else if ds == [] {
      RankBound([], base, levels - 1);
      var p := Pow(base, levels - 1);
      assert base * p >= p by { MulMonotone(1, base, p); }
    } else {
      var p := Pow(base, levels - 1);
      RankBound(ds[1..], base, levels - 1);
      assert ds[0] * p + p == (ds[0] + 1) * p;
      MulMonotone(ds[0] + 1, base, p);
    }
  }

  lemma {:induction false} MulMonotone(a: nat, b: nat, p: nat)
    requires a <= b
    ensures a * p <= b * p
  {
    assert (b - a) * p >= 0;
  }

  /** The first digit that differs decides; a missing digit counts as zero. */
  lemma {:induction false} RankLess(ds: seq<nat>, es: seq<nat>, i: nat, base: nat, levels: nat)
    requires Digits(ds, base) && base > 0
    requires i <= |ds| && i < |es| && i < levels
    requires ds[..i] == es[..i]
    requires if i < |ds| then ds[i] < es[i] else es[i] > 0
    ensures Rank(ds, base, levels) < Rank(es, base, levels)
    decreases i
  {
    if i == 0 {
      FirstDigitDecides(ds, es, base, levels);
    } else {
      hide Digits;
      assert ds[0] == ds[..i][0] == es[..i][0] == es[0];
      assert ds[1..][..i - 1] == ds[..i][1..] == es[..i][1..] == es[1..][..i - 1];
      assert Digits(ds[1..], base) by { DigitsTail(ds, base); }
      RankLess(ds[1..], es[1..], i - 1, base, levels - 1);
    }
  }

  lemma {:induction false} DigitsTail(ds: seq<nat>, base: nat)
    requires ds != [] && Digits(ds, base)
    ensures Digits(ds[1..], base)
  {
  }

  lemma {:induction false} FirstDigitDecides(ds: seq<nat>, es: seq<nat>, base: nat, levels: nat)
    requires Digits(ds, base) && base > 0 && es != [] && levels > 0
    requires if ds != [] then ds[0] < es[0] else es[0] > 0
    ensures Rank(ds, base, levels) < Rank(es, base, levels)
  {
    hide Pow, Digits;
    var p := Pow(base, levels - 1);
    if ds == [] {
      assert Digits([], base) by { NoDigits(base); }
      RankBound([], base, levels - 1);
      DigitGap(0, es[0], p, 0, Rank(es[1..], base, levels - 1));
    } else {
      DigitsTail(ds, base);
      RankBound(ds[1..], base, levels - 1);
      DigitGap(ds[0], es[0], p, Rank(ds[1..], base, levels - 1), Rank(es[1..], base, levels - 1));
    }
  }

  lemma {:induction false} NoDigits(base: nat)
    ensures Digits([], base)
  {
  }

  lemma {:induction false} DigitGap(a: nat, b: nat, p: nat, r: nat, q: nat)
    requires a < b && r < p
    ensures a * p + r < b * p + q
  {
    assert a * p + p == (a + 1) * p;
    MulMonotone(a + 1, b, p);
  }

  ghost function Trail<V>(h: History<V>, stack: seq<nat>): (ds: seq<nat>)
    requires WellTimed(h) && InRange(h, stack)
    ensures |ds| == |stack|
  {
    seq(|stack|, j requires 0 <= j < |stack| => h[stack[j]].call + 1)
  }

  /** How far the search still has to go. */
  ghost function Remaining<V>(h: History<V>, stack: seq<nat>, pos: nat): nat
    requires WellTimed(h) && InRange(h, stack) && pos <= 2 * |h|
  {
    var ds := Trail(h, stack) + [pos + 1];
    RankBound(ds, 2 * |h| + 2, |h| + 2);
    Pow(2 * |h| + 2, |h| + 2) - Rank(ds, 2 * |h| + 2, |h| + 2)
  }

  lemma {:induction false} SkipProgress<V>(h: History<V>, stack: seq<nat>, pos: nat, pos': nat)
    requires WellTimed(h) && InRange(h, stack) && |stack| <= |h| && pos < pos' <= 2 * |h|
    ensures Remaining(h, stack, pos') < Remaining(h, stack, pos)
  {
    var t := Trail(h, stack);
    assert (t + [pos + 1])[..|t|] == t == (t + [pos' + 1])[..|t|];
    RankLess(t + [pos + 1], t + [pos' + 1], |t|, 2 * |h| + 2, |h| + 2);
  }

  lemma {:induction false} PushProgress<V>(h: History<V>, stack: seq<nat>, pos: nat, x: nat, pos': nat)
    requires WellTimed(h) && InRange(h, stack) && |stack| < |h| && pos <= 2 * |h| && pos' <= 2 * |h|
    requires x < |h| && h[x].call == pos
    ensures Remaining(h, stack + [x], pos') < Remaining(h, stack, pos)
  {
    var ds := Trail(h, stack) + [pos + 1];
    assert Trail(h, stack + [x]) == ds;
    assert ds[..|ds|] == ds == (ds + [pos' + 1])[..|ds|];
    RankLess(ds, ds + [pos' + 1], |ds|, 2 * |h| + 2, |h| + 2);
  }

  lemma {:induction false} PopProgress<V>(h: History<V>, stack: seq<nat>, pos: nat, pos': nat)
    requires WellTimed(h) && InRange(h, stack) && 0 < |stack| <= |h| && pos <= 2 * |h|
    requires h[stack[|stack| - 1]].call < pos' <= 2 * |h|
    ensures Remaining(h, stack[..|stack| - 1], pos') < Remaining(h, stack, pos)
  {
    var k := |stack| - 1;
    var ds, es := Trail(h, stack) + [pos + 1], Trail(h, stack[..k]) + [pos' + 1];
    assert ds[..k] == Trail(h, stack[..k]) == es[..k];
    RankLess(ds, es, k, 2 * |h| + 2, |h| + 2);
  }
}
