/** Byte strings, in the order in which Go compares strings. */
module Bytes {
  import opened Basics

  type Byte = b: int | 0 <= b < 256
  type Text = seq<Byte>

  predicate Less(a: Text, b: Text)
    decreases |b|
  {
    b != [] && (a == [] || a[0] < b[0] || (a[0] == b[0] && Less(a[1..], b[1..])))
  }

  /** The bytes of an ASCII text. */
  function Ascii(s: string): (t: Text)
    ensures |t| == |s| && forall i :: 0 <= i < |s| ==> t[i] == s[i] as int % 256
  {
    seq(|s|, i requires 0 <= i < |s| => s[i] as int % 256)
  }

  /** The first place where two texts differ, or where the shorter one ends. */
  ghost predicate DifferAt(a: Text, b: Text, n: nat) {
    n < |b| && n <= |a| && a[..n] == b[..n] && (n == |a| || a[n] < b[n])
  }

  /** It is the lexicographic order: a proper prefix, or a smaller byte at the first difference. */
  lemma {:induction false} LessIsLexicographic(a: Text, b: Text)
    ensures Less(a, b) <==> exists n: nat :: DifferAt(a, b, n)
    decreases |b|
  {
    if Less(a, b) {
      if a == [] || a[0] < b[0] {
        assert DifferAt(a, b, 0);
      } else {
        LessIsLexicographic(a[1..], b[1..]);
        var n: nat :| DifferAt(a[1..], b[1..], n);
        FrontDiffers(a, b, n);
      }
    }
    forall n: nat | DifferAt(a, b, n) ensures Less(a, b) {
      DifferIsLess(a, b, n);
    }
  }

  lemma {:induction false} DifferIsLess(a: Text, b: Text, n: nat)
    requires DifferAt(a, b, n)
    ensures Less(a, b)
    decreases n
  {
    if n > 0 {
      assert a[0] == a[..n][0] && b[0] == b[..n][0];
      assert a[1..][..n - 1] == a[..n][1..] && b[1..][..n - 1] == b[..n][1..];
      DifferIsLess(a[1..], b[1..], n - 1);
    }
  }

  lemma FrontDiffers(a: Text, b: Text, n: nat)
    requires a != [] && b != [] && a[0] == b[0] && DifferAt(a[1..], b[1..], n)
    ensures DifferAt(a, b, n + 1)
  {
    assert a[..n + 1] == [a[0]] + a[1..][..n] && b[..n + 1] == [b[0]] + b[1..][..n];
  }

  lemma {:induction false} LessTrans(a: Text, b: Text, c: Text)
    requires Less(a, b) && Less(b, c)
    ensures Less(a, c)
    decreases |b|
  {
    if a != [] && a[0] == b[0] && b[0] == c[0] {
      LessTrans(a[1..], b[1..], c[1..]);
    }
  }

  lemma {:induction false} LessTotal(a: Text, b: Text)
    ensures Less(a, b) || a == b || Less(b, a)
    ensures !(Less(a, b) && Less(b, a)) && (a == b ==> !Less(a, b))
    decreases |a|
  {
    if a != [] && b != [] && a[0] == b[0] {
      LessTotal(a[1..], b[1..]);
      assert a == [a[0]] + a[1..] && b == [b[0]] + b[1..];
    }
  }

  // --------------------------------------------------------------------- sorting

  predicate Sorted(s: seq<Text>) {
    forall i, j :: 0 <= i < j < |s| ==> !Less(s[j], s[i])
  }

  predicate StrictlySorted(s: seq<Text>) {
    forall i, j :: 0 <= i < j < |s| ==> Less(s[i], s[j])
  }

  function Insert(s: seq<Text>, x: Text): seq<Text> {
    if s == [] || !Less(s[0], x) then [x] + s else [s[0]] + Insert(s[1..], x)
  }

  function Sort(s: seq<Text>): seq<Text> {
    if s == [] then [] else Insert(Sort(s[1..]), s[0])
  }

  lemma ConsSorted(a: Text, r: seq<Text>)
    requires Sorted(r) && forall j :: 0 <= j < |r| ==> !Less(r[j], a)
    ensures Sorted([a] + r)
  {
    assert forall j :: 0 <= j < |r| ==> ([a] + r)[j + 1] == r[j];
  }

  lemma NoneBelow(s: seq<Text>, x: Text, j: nat)
    requires Sorted(s) && j < |s| && !Less(s[0], x)
    ensures !Less(s[j], x)
  {
    if j > 0 {
      NotLessTrans(s[j], s[0], x);
    }
  }

  lemma {:induction false} InsertSorts(s: seq<Text>, x: Text)
    requires Sorted(s)
    ensures Sorted(Insert(s, x)) && multiset(Insert(s, x)) == multiset(s) + multiset{x}
    decreases |s|
  {
    if s == [] {
    } else if !Less(s[0], x) {
      forall j | 0 <= j < |s| ensures !Less(s[j], x) {
        NoneBelow(s, x, j);
      }
      ConsSorted(x, s);
    } else {
      InsertSorts(s[1..], x);
      var r := Insert(s[1..], x);
      assert s == [s[0]] + s[1..];
      forall j | 0 <= j < |r| ensures !Less(r[j], s[0]) {
        assert r[j] in multiset(r);
        if r[j] == x {
          LessTotal(s[0], x);
        } else {
          assert r[j] in s[1..];
        }
      }
      ConsSorted(s[0], r);
    }
  }

  lemma NotLessTrans(a: Text, b: Text, c: Text)
    requires !Less(a, b) && !Less(b, c)
    ensures !Less(a, c)
  {
    LessTotal(a, b);
    LessTotal(b, c);
    LessTotal(a, c);
    if Less(a, c) && a != b && b != c {
      LessTrans(c, b, a);
    }
  }

  /** Sorting gives an ordered permutation. */
  lemma {:induction false} SortSorts(s: seq<Text>)
    ensures Sorted(Sort(s)) && multiset(Sort(s)) == multiset(s) && |Sort(s)| == |s|
    decreases |s|
  {
    if s != [] {
      SortSorts(s[1..]);
      InsertSorts(Sort(s[1..]), s[0]);
      assert s == [s[0]] + s[1..];
    }
    assert |multiset(Sort(s))| == |multiset(s)|;
  }

  /** Distinct strings sort into strictly ascending order. */
  lemma SortDistinct(s: seq<Text>)
    requires Distinct(s)
    ensures StrictlySorted(Sort(s))
  {
    SortSorts(s);
    var t := Sort(s);
    forall i, j | 0 <= i < j < |t| ensures Less(t[i], t[j]) {
      LessTotal(t[i], t[j]);
      if t[i] == t[j] {
        TwiceInMultiset(t, i, j);
        OnceInMultiset(s, t[i]);
      }
    }
  }

  lemma TwiceInMultiset(t: seq<Text>, i: nat, j: nat)
    requires i < j < |t| && t[i] == t[j]
    ensures multiset(t)[t[i]] >= 2
  {
    assert t == t[..j] + [t[j]] + t[j + 1..];
    assert t[..j][i] == t[i];
    assert t[i] in multiset(t[..j]);
  }

  lemma {:induction false} OnceInMultiset(s: seq<Text>, x: Text)
    requires Distinct(s)
    ensures multiset(s)[x] <= 1
    decreases |s|
  {
    if s != [] {
      assert s == [s[0]] + s[1..];
      OnceInMultiset(s[1..], x);
      if x == s[0] {
        assert x !in s[1..];
      }
    }
  }
}
