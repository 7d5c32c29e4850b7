/** porcupine/bitset.go: a set of naturals in 64-bit chunks.

    A `uint64` is its 64 bits, lowest first, and the bit operators work bit by bit.  The Go type
    is a slice, here an array that `Set` and `Clear` change in place; `Members` is the set that
    the chunks stand for. */
module Bitset {

  type Word = w: seq<bool> | |w| == 64 witness seq(64, _ => false)

  const ZERO: Word := seq(64, _ => false)

  function Or(v: Word, w: Word): Word {
    seq(64, i requires 0 <= i < 64 => v[i] || w[i])
  }

  function AndNot(v: Word, w: Word): Word {
    seq(64, i requires 0 <= i < 64 => v[i] && !w[i])
  }

  function And(v: Word, w: Word): Word {
    seq(64, i requires 0 <= i < 64 => v[i] && w[i])
  }

  function Xor(v: Word, w: Word): Word {
    seq(64, i requires 0 <= i < 64 => v[i] != w[i])
  }

  /** Go's `1 << minor`. */
  function OneAt(minor: nat): Word
    requires minor < 64
  {
    seq(64, i requires 0 <= i < 64 => i == minor)
  }

  function NthBit(n: nat, i: nat): bool {
    if i == 0 then n % 2 == 1 else NthBit(n / 2, i - 1)
  }

  /** Go's `uint64(n)`: the 64 lowest bits of `n`. */
  function Uint64(n: nat): Word {
    seq(64, i requires 0 <= i < 64 => NthBit(n, i))
  }

  predicate Has(b: seq<Word>, pos: nat)
    requires pos < 64 * |b|
  {
    b[pos / 64][pos % 64]
  }

  ghost function Members(b: seq<Word>): set<nat> {
    set pos: nat | pos < 64 * |b| && Has(b, pos)
  }

  lemma {:induction false} SamePlace(p: nat, q: nat)
    requires p / 64 == q / 64 && p % 64 == q % 64
    ensures p == q
  {
  }

  lemma {:induction false} ChunkUpdate(b: seq<Word>, pos: nat)
    requires pos < 64 * |b|
    ensures Members(b[pos / 64 := Or(b[pos / 64], OneAt(pos % 64))]) == Members(b) + {pos}
    ensures Members(b[pos / 64 := AndNot(b[pos / 64], OneAt(pos % 64))]) == Members(b) - {pos}
  {
    var s, c := b[pos / 64 := Or(b[pos / 64], OneAt(pos % 64))], b[pos / 64 := AndNot(b[pos / 64], OneAt(pos % 64))];
    forall q: nat | q < 64 * |b|
      ensures Has(s, q) <==> Has(b, q) || q == pos
      ensures Has(c, q) <==> Has(b, q) && q != pos
    {
      if q / 64 == pos / 64 && q % 64 == pos % 64 { SamePlace(pos, q); }
    }
  }

  /** The chunks are determined by the members: bitsets of the same length are equal exactly
      when they stand for the same set. */
  lemma {:induction false} MembersInjective(b: seq<Word>, c: seq<Word>)
    requires |b| == |c|
    ensures Members(b) == Members(c) <==> b == c
  {
    if Members(b) == Members(c) {
      forall i | 0 <= i < |b| ensures b[i] == c[i] {
        forall j | 0 <= j < 64 ensures b[i][j] == c[i][j] {
          var pos := 64 * i + j;
          assert pos / 64 == i && pos % 64 == j;
          assert pos in Members(b) <==> Has(b, pos);
          assert pos in Members(c) <==> Has(c, pos);
        }
      }
    }
  }

  // ----- bitset.go

  /** bitset.go:10-17: enough chunks for `bits` bits, all clear. */
  method NewBitset(bits: nat) returns (b: array<Word>)
    ensures fresh(b) && bits <= 64 * b.Length < bits + 64
    ensures Members(b[..]) == {}
  {
    var extra := if bits % 64 != 0 then 1 else 0;
    b := new Word[bits / 64 + extra](_ => ZERO);
    forall pos: nat | pos < 64 * b.Length ensures !Has(b[..], pos) {
      assert b[..][pos / 64] == ZERO;
    }
  }

  /** bitset.go:19-23. */
  method Clone(b: array<Word>) returns (c: array<Word>)
    ensures fresh(c) && c[..] == b[..]
  {
    c := new Word[b.Length](i requires 0 <= i < b.Length reads b => b[i]);
  }

  /** bitset.go:29-33. */
  method Set(b: array<Word>, pos: nat)
    requires pos < 64 * b.Length
    modifies b
    ensures Members(b[..]) == old(Members(b[..])) + {pos}
  {
    var major, minor := pos / 64, pos % 64;
    ghost var was := b[..];
    b[major] := Or(b[major], OneAt(minor));
    assert b[..] == was[major := Or(was[major], OneAt(minor))];
    ChunkUpdate(was, pos);
  }

  /** bitset.go:35-39. */
  method Clear(b: array<Word>, pos: nat)
    requires pos < 64 * b.Length
    modifies b
    ensures Members(b[..]) == old(Members(b[..])) - {pos}
  {
    var major, minor := pos / 64, pos % 64;
    ghost var was := b[..];
    b[major] := AndNot(b[major], OneAt(minor));
    assert b[..] == was[major := AndNot(was[major], OneAt(minor))];
    ChunkUpdate(was, pos);
  }

  /** bitset.go:41-44. */
  method Get(b: array<Word>, pos: nat) returns (r: bool)
    requires pos < 64 * b.Length
    ensures r <==> pos in Members(b[..])
  {
    var major, minor := pos / 64, pos % 64;
    var masked := And(b[major], OneAt(minor));
    assert masked[minor] == b[..][major][minor];
    assert !masked[minor] ==> masked == ZERO;
    r := masked != ZERO;
  }

  /** Go's bits.OnesCount64, over the `k` lowest bits. */
  function OnesBelow(v: Word, k: nat): nat
    requires k <= 64
  {
    if k == 0 then 0 else OnesBelow(v, k - 1) + if v[k - 1] then 1 else 0
  }

  predicate BitAt(v: Word, base: nat, pos: nat) {
    base <= pos < base + 64 && v[pos - base]
  }

  ghost function BitsBelow(v: Word, k: nat, base: nat): set<nat> {
    set pos: nat | pos < base + k && BitAt(v, base, pos)
  }

  lemma {:induction false} OnesBelowCounts(v: Word, k: nat, base: nat)
    requires k <= 64
    ensures OnesBelow(v, k) == |BitsBelow(v, k, base)|
  {
    if k > 0 {
      OnesBelowCounts(v, k - 1, base);
      var top := base + k - 1;
      assert BitsBelow(v, k, base) == BitsBelow(v, k - 1, base) + if v[k - 1] then {top} else {};
    }
  }

  lemma {:induction false} MembersSnoc(b: seq<Word>, v: Word)
    ensures |Members(b + [v])| == |Members(b)| + OnesBelow(v, 64)
  {
    var base := 64 * |b|;
    var s, t, u := Members(b + [v]), Members(b), BitsBelow(v, 64, base);
    forall pos: nat | pos < base + 64 ensures pos in s <==> pos in t || pos in u {
      if pos < base {
        assert (b + [v])[pos / 64] == b[pos / 64];
      } else {
        assert pos / 64 == |b| && pos % 64 == pos - base;
      }
    }
    assert s == t + u && t !! u;
    OnesBelowCounts(v, 64, base);
  }

  /** bitset.go:46-52: the size of the set. */
  method Popcnt(b: array<Word>) returns (total: nat)
    ensures total == |Members(b[..])|
  {
    total := 0;
    assert Members(b[..0]) == {};
    for i := 0 to b.Length
      invariant total == |Members(b[..i])|
    {
      MembersSnoc(b[..i], b[i]);
      assert b[..i + 1] == b[..i] + [b[i]];
      total := total + OnesBelow(b[i], 64);
    }
    assert b[..b.Length] == b[..];
  }

  function XorInto(hash: Word, b: seq<Word>): Word {
    if b == [] then hash else Xor(XorInto(hash, b[..|b| - 1]), b[|b| - 1])
  }

  /** The hash is a function of the chunks alone. */
  ghost function HashOf(b: seq<Word>): Word {
    XorInto(Uint64(|Members(b)|), b)
  }

  function Power(k: nat): (p: nat)
    ensures p > 0
  {
    if k == 0 then 1 else 2 * Power(k - 1)
  }

  lemma {:induction false} HalfThenDivide(n: nat, p: nat)
    requires p > 0
    ensures n / 2 / p == n / (2 * p)
  {
    var q, r := n / (2 * p), n % (2 * p);
    assert n == 2 * (p * q) + r;
    assert n / 2 == p * q + r / 2 && r / 2 < p;
    assert (p * q + r / 2) / p == q by { DivideExact(p, q, r / 2); }
  }

  lemma {:induction false} DivideExact(p: nat, q: nat, r: nat)
    requires r < p
    ensures (p * q + r) / p == q
  {
    var d := (p * q + r) / p;
    assert p * d <= p * q + r < p * d + p;
    assert d < q ==> p * (d + 1) <= p * q;
    assert d > q ==> p * (q + 1) <= p * d;
  }

  lemma {:induction false} NthBitIs(n: nat, k: nat)
    ensures NthBit(n, k) <==> n / Power(k) % 2 == 1
  {
    if k > 0 {
      NthBitIs(n / 2, k - 1);
      HalfThenDivide(n, Power(k - 1));
    }
  }

  /** The members that share bit `k` of a chunk. */
  ghost function Column(b: seq<Word>, k: nat): set<nat> {
    set pos | pos in Members(b) && pos % 64 == k
  }

  lemma {:induction false} MemberSnoc(b: seq<Word>, v: Word, pos: nat)
    ensures pos in Members(b + [v]) <==> pos in Members(b) || BitAt(v, 64 * |b|, pos)
  {
    var base, c := 64 * |b|, b + [v];
    if pos < base {
      assert c[pos / 64] == b[pos / 64];
    } else if pos < base + 64 {
      assert pos / 64 == |b| && pos % 64 == pos - base;
    }
  }

  lemma {:induction false} BitInColumn(v: Word, n: nat, k: nat, pos: nat)
    requires k < 64
    ensures BitAt(v, 64 * n, pos) && pos % 64 == k <==> v[k] && pos == 64 * n + k
  {
  }

  lemma {:induction false} ColumnSnoc(b: seq<Word>, v: Word, k: nat)
    requires k < 64
    ensures |Column(b + [v], k)| == |Column(b, k)| + if v[k] then 1 else 0
  {
    hide Members, BitAt;
    var top := 64 * |b| + k;
    forall pos: nat ensures pos in Column(b + [v], k) <==> pos in Column(b, k) || (v[k] && pos == top) {
      MemberSnoc(b, v, pos);
      BitInColumn(v, |b|, k, pos);
    }
    assert Column(b + [v], k) == Column(b, k) + if v[k] then {top} else {};
    assert top !in Column(b, k) by { MembersBelow(b, top); }
  }

  lemma {:induction false} MembersBelow(b: seq<Word>, pos: nat)
    ensures pos in Members(b) ==> pos < 64 * |b|
  {
  }

  lemma {:induction false} XorIntoBit(hash: Word, b: seq<Word>, k: nat)
    requires k < 64
    ensures XorInto(hash, b)[k] <==> ((if hash[k] then 1 else 0) + |Column(b, k)|) % 2 == 1
  {
    if b == [] {
      assert Column(b, k) == {};
    } else {
      var n := |b| - 1;
      XorIntoBit(hash, b[..n], k);
      ColumnSnoc(b[..n], b[n], k);
      assert b == b[..n] + [b[n]];
    }
  }

  /** What the bits of the hash are, from the set alone: bit `k` is the parity of bit `k` of the
      size together with the members that are `k` modulo 64. */
  lemma {:induction false} HashBit(b: seq<Word>, k: nat)
    requires k < 64
    ensures HashOf(b)[k] <==> (|Members(b)| / Power(k) + |Column(b, k)|) % 2 == 1
  {
    hide Members, Power, XorInto;
    XorIntoBit(Uint64(|Members(b)|), b, k);
    NthBitIs(|Members(b)|, k);
  }

  /** Bitsets of the same length that stand for the same set have the same hash. */
  lemma {:induction false} EqualSetsHashEqually(b: seq<Word>, c: seq<Word>)
    requires |b| == |c| && Members(b) == Members(c)
    ensures HashOf(b) == HashOf(c)
  {
    hide Members, HashOf;
    MembersInjective(b, c);
  }

  /** bitset.go:54-60. */
  method Hash(b: array<Word>) returns (hash: Word)
    ensures hash == HashOf(b[..])
  {
    var total := Popcnt(b);
    hash := Uint64(total);
    for i := 0 to b.Length
      invariant hash == XorInto(Uint64(total), b[..i])
    {
      assert b[..i + 1][..i] == b[..i];
      hash := Xor(hash, b[i]);
    }
    assert b[..b.Length] == b[..];
  }

  /** bitset.go:62-72. */
  method Equals(b: array<Word>, b2: array<Word>) returns (r: bool)
    ensures r <==> b[..] == b2[..]
    ensures b.Length == b2.Length ==> (r <==> Members(b[..]) == Members(b2[..]))
  {
    hide Members;
    if b.Length == b2.Length {
      MembersInjective(b[..], b2[..]);
    }
    if b.Length != b2.Length {
      return false;
    }
    for i := 0 to b.Length
      invariant b[..i] == b2[..i]
    {
      if b[i] != b2[i] {
        assert b[..][i] != b2[..][i];
        return false;
      }
    }
    assert b[..] == b[..b.Length] && b2[..] == b2[..b2.Length];
    return true;
  }
}
