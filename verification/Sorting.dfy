/** What Go's sort.Sort promises: some permutation in which no later element is less than an
    earlier one.  It is not stable, so nothing is said about the order of ties. */
module Sorting {

  /** A comparison by some key, as `Less` of a sort.Interface has to be. */
  ghost predicate Ordering<T(!new)>(less: (T, T) -> bool) {
    && (forall a, b | less(a, b) :: !less(b, a))
    && (forall a, b, c | !less(b, a) && !less(c, b) :: !less(c, a))
  }

  predicate Sorted<T>(less: (T, T) -> bool, s: seq<T>) {
    forall i, j | 0 <= i < j < |s| :: !less(s[j], s[i])
  }

  predicate IsSort<T(==)>(less: (T, T) -> bool, s: seq<T>, t: seq<T>) {
    Sorted(less, s) && multiset(s) == multiset(t)
  }

  function Insert<T>(less: (T, T) -> bool, x: T, s: seq<T>): seq<T> {
    if s == [] || !less(s[0], x) then [x] + s else [s[0]] + Insert(less, x, s[1..])
  }

  lemma {:induction false} InsertSorted<T(!new)>(less: (T, T) -> bool, x: T, s: seq<T>)
    requires Ordering(less) && Sorted(less, s)
    ensures Sorted(less, Insert(less, x, s))
    ensures multiset(Insert(less, x, s)) == multiset(s) + multiset{x}
  {
    if s == [] {
    } else if !less(s[0], x) {
      assert multiset([x] + s) == multiset{x} + multiset(s);
    } else {
      var tail := Insert(less, x, s[1..]);
      InsertSorted(less, x, s[1..]);
      assert s == [s[0]] + s[1..];
      forall j | 0 <= j < |tail| ensures !less(tail[j], s[0]) {
        assert tail[j] in multiset(tail);
        assert tail[j] == x || tail[j] in s[1..];
      }
    }
  }

  lemma {:induction false} SortExists<T(!new)>(less: (T, T) -> bool, t: seq<T>) returns (s: seq<T>)
    requires Ordering(less)
    ensures IsSort(less, s, t)
  {
    if t == [] {
      s := [];
    } else {
      var rest := SortExists(less, t[1..]);
      s := Insert(less, t[0], rest);
      InsertSorted(less, t[0], rest);
      assert t == [t[0]] + t[1..];
    }
  }

  /** sort.Sort: any of the sorts, not a particular one. */
  method Sort<T(==, !new)>(less: (T, T) -> bool, t: seq<T>) returns (s: seq<T>)
    requires Ordering(less)
    ensures IsSort(less, s, t) && multiset(s) == multiset(t)
  {
    ghost var some := SortExists(less, t);
    s :| IsSort(less, s, t);
  }

  lemma {:induction false} SameElements<T>(s: seq<T>, t: seq<T>)
    requires multiset(s) == multiset(t)
    ensures |s| == |t| && forall x :: x in s <==> x in t
  {
    assert |multiset(s)| == |s| && |multiset(t)| == |t|;
    assert forall x :: x in s <==> x in multiset(s);
    assert forall x :: x in t <==> x in multiset(t);
  }

  /** Sorting a sequence without duplicates introduces none. */
  lemma {:induction false} CountOfDistinct<T>(t: seq<T>, x: T)
    requires forall i, j | 0 <= i < j < |t| :: t[i] != t[j]
    ensures multiset(t)[x] <= 1
  {
    if t != [] {
      CountOfDistinct(t[1..], x);
      assert t == [t[0]] + t[1..];
      if t[0] == x { assert x !in t[1..]; }
    }
  }

  lemma {:induction false} NoNewDuplicates<T>(s: seq<T>, t: seq<T>)
    requires multiset(s) == multiset(t)
    requires forall i, j | 0 <= i < j < |t| :: t[i] != t[j]
    ensures forall i, j | 0 <= i < j < |s| :: s[i] != s[j]
  {
    forall i, j | 0 <= i < j < |s| ensures s[i] != s[j] {
      assert s == s[..i] + [s[i]] + s[i + 1..j] + [s[j]] + s[j + 1..];
      CountOfDistinct(t, s[i]);
    }
  }

  // ----- Go's order on strings

  predicate Less(a: string, b: string) {
    b != [] && (a == [] || a[0] < b[0] || (a[0] == b[0] && Less(a[1..], b[1..])))
  }

  lemma {:induction false} LessAsymmetric(a: string, b: string)
    requires Less(a, b)
    ensures !Less(b, a)
  {
    if a != [] && a[0] == b[0] { LessAsymmetric(a[1..], b[1..]); }
  }

  lemma {:induction false} LessTrichotomy(a: string, b: string)
    ensures !Less(a, b) && !Less(b, a) <==> a == b
  {
    if a != [] && b != [] {
      LessTrichotomy(a[1..], b[1..]);
      assert a == [a[0]] + a[1..] && b == [b[0]] + b[1..];
    }
  }

  lemma {:induction false} NotLessTransitive(a: string, b: string, c: string)
    requires !Less(b, a) && !Less(c, b)
    ensures !Less(c, a)
  {
    if a != [] && b != [] && c != [] {
      if b[0] == a[0] && c[0] == b[0] { NotLessTransitive(a[1..], b[1..], c[1..]); }
    }
  }

  lemma {:induction false} LessIsOrdering()
    ensures Ordering(Less)
  {
    forall a, b | Less(a, b) ensures !Less(b, a) { LessAsymmetric(a, b); }
    forall a, b, c | !Less(b, a) && !Less(c, b) ensures !Less(c, a) { NotLessTransitive(a, b, c); }
  }

  /** Go's order on strings, without recursion: the first character in which they differ
      decides, and a proper prefix comes before what it is a prefix of. */
  ghost predicate Before(a: string, b: string) {
    exists k: nat :: DiffersAt(a, b, k)
  }

  predicate DiffersAt(a: string, b: string, k: nat) {
    k <= |a| && k < |b| && a[..k] == b[..k] && (k == |a| || a[k] < b[k])
  }

  lemma {:induction false} SameStart(a: string, b: string, k: nat)
    requires DiffersAt(a, b, k)
    ensures k > 0 ==> a != [] && b != [] && a[0] == b[0]
  {
    if k > 0 {
      assert a[..k][0] == b[..k][0];
    }
  }

  lemma {:induction false} LessIsBefore(a: string, b: string)
    ensures Less(a, b) <==> Before(a, b)
  {
    if b == [] || a == [] || a[0] != b[0] {
      if Less(a, b) {
        assert DiffersAt(a, b, 0);
      }
      if k: nat :| DiffersAt(a, b, k) {
        SameStart(a, b, k);
      }
    } else {
      LessIsBefore(a[1..], b[1..]);
      if k: nat :| DiffersAt(a[1..], b[1..], k) {
        assert a[..k + 1] == [a[0]] + a[1..][..k] && b[..k + 1] == [b[0]] + b[1..][..k];
        assert DiffersAt(a, b, k + 1);
      }
      if k: nat :| DiffersAt(a, b, k) {
        assert a[1..][..k - 1] == a[..k][1..] && b[1..][..k - 1] == b[..k][1..];
        assert DiffersAt(a[1..], b[1..], k - 1);
      }
    }
  }

  /** Sorted strings without duplicates are in strictly ascending order. */
  lemma {:induction false} SortedAscends(s: seq<string>)
    requires Sorted(Less, s) && forall i, j | 0 <= i < j < |s| :: s[i] != s[j]
    ensures forall i, j | 0 <= i < j < |s| :: Before(s[i], s[j])
  {
    forall i, j | 0 <= i < j < |s| ensures Before(s[i], s[j]) {
      LessTrichotomy(s[i], s[j]);
      LessIsBefore(s[i], s[j]);
    }
  }
}
