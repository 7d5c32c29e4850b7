/** The memo table of porcupine/checker.go: buckets of (linearized set, state) by hash. */
module Cache {
  import opened Linearizability
  import opened Search
  import opened Bitset

  datatype CacheEntry<S> = CacheEntry(linearized: array<Word>, state: S)

  type Cache<S> = map<Word, seq<CacheEntry<S>>>

  /** The bitsets that the table refers to are among `bitsets`. */
  ghost predicate Within<S>(cache: Cache<S>, bitsets: set<array<Word>>) {
    forall h, i | h in cache && 0 <= i < |cache[h]| :: cache[h][i].linearized in bitsets
  }

  /** Every entry has the width of the search and sits in the bucket of its hash. */
  ghost predicate ValidCache<S>(cache: Cache<S>, bitsets: set<array<Word>>, width: nat)
    reads bitsets
  {
    && Within(cache, bitsets)
    && forall h, i | h in cache && 0 <= i < |cache[h]| ::
         cache[h][i].linearized.Length == width && HashOf(cache[h][i].linearized[..]) == h
  }

  ghost function ConfigOf<S>(e: CacheEntry<S>): Config<S>
    reads e.linearized
  {
    Config(Members(e.linearized[..]), e.state)
  }

  /** All configurations inserted so far. */
  ghost function Configs<S>(cache: Cache<S>, bitsets: set<array<Word>>): set<Config<S>>
    requires Within(cache, bitsets)
    reads bitsets
  {
    set h, i | h in cache && 0 <= i < |cache[h]| :: ConfigOf(cache[h][i])
  }

  /** checker.go:140-147.  Looking in one bucket finds what is anywhere in the table, whatever
      the hash collisions. */
  method CacheContains<S, V>(model: Model<S, V>, cache: Cache<S>, entry: CacheEntry<S>, ghost bitsets: set<array<Word>>)
    returns (r: bool)
    requires ValidCache(cache, bitsets, entry.linearized.Length)
    ensures r <==> exists c | c in Configs(cache, bitsets) ::
      c.done == Members(entry.linearized[..]) && model.equal(entry.state, c.state)
  {
    hide Members, HashOf, ValidCache;
    assert Within(cache, bitsets) by { CacheWithin(cache, bitsets, entry.linearized.Length); }
    var hash := Hash(entry.linearized);
    var bucket := if hash in cache then cache[hash] else [];
    for i := 0 to |bucket|
      invariant forall j | 0 <= j < i ::
        !(entry.linearized[..] == bucket[j].linearized[..] && model.equal(entry.state, bucket[j].state))
    {
      var elem := bucket[i];
      var same := Equals(entry.linearized, elem.linearized);
      if same && model.equal(entry.state, elem.state) {
        assert ConfigOf(cache[hash][i]) in Configs(cache, bitsets);
        return true;
      }
    }
    forall c | c in Configs(cache, bitsets) && c.done == Members(entry.linearized[..])
      ensures !model.equal(entry.state, c.state)
    {
      var i := FindInBucket(cache, entry, bitsets, c);
      assert cache[hash][i] == bucket[i];
    }
    return false;
  }

  lemma {:induction false} CacheWithin<S>(cache: Cache<S>, bitsets: set<array<Word>>, width: nat)
    requires ValidCache(cache, bitsets, width)
    ensures Within(cache, bitsets)
  {
  }

  /** A configuration with the same set is in the same bucket, with equal chunks. */
  lemma {:induction false} FindInBucket<S>(cache: Cache<S>, entry: CacheEntry<S>, bitsets: set<array<Word>>, c: Config<S>) returns (i: nat)
    requires ValidCache(cache, bitsets, entry.linearized.Length)
    requires c in Configs(cache, bitsets) && c.done == Members(entry.linearized[..])
    ensures var h := HashOf(entry.linearized[..]);
      h in cache && i < |cache[h]| && cache[h][i].linearized[..] == entry.linearized[..] && cache[h][i].state == c.state
  {
    var h, k :| h in cache && 0 <= k < |cache[h]| && c == ConfigOf(cache[h][k]);
    MembersInjective(entry.linearized[..], cache[h][k].linearized[..]);
    i := k;
  }

  /** checker.go:196-197: the bucket of `hash` with one more entry. */
  function Insert<S>(cache: Cache<S>, hash: Word, e: CacheEntry<S>): Cache<S> {
    cache[hash := (if hash in cache then cache[hash] else []) + [e]]
  }

  lemma {:induction false} InsertConfigs<S>(cache: Cache<S>, hash: Word, e: CacheEntry<S>, bitsets: set<array<Word>>)
    requires ValidCache(cache, bitsets, e.linearized.Length) && hash == HashOf(e.linearized[..])
    ensures ValidCache(Insert(cache, hash, e), bitsets + {e.linearized}, e.linearized.Length)
    ensures Configs(Insert(cache, hash, e), bitsets + {e.linearized}) == Configs(cache, bitsets) + {ConfigOf(e)}
  {
    var cache' := Insert(cache, hash, e);
    var k := |cache'[hash]| - 1;
    assert cache'[hash][k] == e;
    forall h, i | h in cache && 0 <= i < |cache[h]| ensures h in cache' && i < |cache'[h]| && cache'[h][i] == cache[h][i] {
    }
    forall h, i | h in cache' && 0 <= i < |cache'[h]|
      ensures cache'[h][i] == e || (h in cache && i < |cache[h]| && cache'[h][i] == cache[h][i])
    {
    }
  }
}
