/** Small notions that several modules share. */
module Basics {
  import opened Results

  /** The number of values of an unsigned 32-bit integer. */
  const U32: nat := 0x1_0000_0000

  function Or<T>(o: Option<T>, otherwise: T): T {
    if o.Some? then o.value else otherwise
  }

  /** A flag as a number of fields set. */
  function Count(b: bool): nat {
    if b then 1 else 0
  }

  predicate Distinct<T(==)>(s: seq<T>) {
    forall i, j :: 0 <= i < j < |s| ==> s[i] != s[j]
  }

  function Flatten<T>(pages: seq<seq<T>>): seq<T> {
    if pages == [] then [] else pages[0] + Flatten(pages[1..])
  }

  lemma FlattenCons<T>(p: seq<T>, pages: seq<seq<T>>)
    ensures Flatten([p] + pages) == p + Flatten(pages)
  {
    assert ([p] + pages)[1..] == pages;
  }

  lemma SmallerSet<T>(a: set<T>, b: set<T>)
    requires a <= b
    ensures |a| <= |b|
  {
    assert b == a + (b - a);
  }

  /** A table without some of its rows. */
  function Without<K, V>(m: map<K, V>, gone: set<K>): map<K, V> {
    map k | k in m && k !in gone :: m[k]
  }

  lemma WithoutShrinks<K, V>(m: map<K, V>, gone: set<K>, k: K)
    requires k in gone && k in m
    ensures |Without(m, gone)| < |m|
  {
    var less := Without(m, gone);
    assert less.Keys <= m.Keys - {k};
    SmallerSet(less.Keys, m.Keys - {k});
    assert |m.Keys - {k}| == |m.Keys| - 1;
  }
}
