/** Python's `sorted`: a stable sort of a list by a text key, and the order on
    text it uses. Whatever the list, the result is a sorted permutation of it;
    when no two different elements share a key it is the only one. */
module Sorting {

  /** `a <= b` on Python strings: code point by code point, a prefix first. */
  predicate TextLe(a: string, b: string)
    decreases |a|
  {
    a == "" || (b != "" && (a[0] < b[0] || (a[0] == b[0] && TextLe(a[1..], b[1..]))))
  }

  lemma {:induction false} TextLeTotal(a: string, b: string)
    ensures TextLe(a, b) || TextLe(b, a)
    decreases |a|
  {
    if a != "" && b != "" && a[0] == b[0] { TextLeTotal(a[1..], b[1..]); }
  }

  lemma {:induction false} TextLeAntisymmetric(a: string, b: string)
    requires TextLe(a, b) && TextLe(b, a)
    ensures a == b
    decreases |a|
  {
    if a != "" && b != "" {
      TextLeAntisymmetric(a[1..], b[1..]);
      assert a == [a[0]] + a[1..] && b == [b[0]] + b[1..];
    }
  }

  lemma {:induction false} TextLeTransitive(a: string, b: string, c: string)
    requires TextLe(a, b) && TextLe(b, c)
    ensures TextLe(a, c)
    decreases |a|
  {
    if a != "" && b != "" && c != "" && a[0] == b[0] && b[0] == c[0] {
      TextLeTransitive(a[1..], b[1..], c[1..]);
    }
  }

  ghost predicate SortedBy<T>(s: seq<T>, key: T -> string) {
    forall i, j :: 0 <= i < j < |s| ==> TextLe(key(s[i]), key(s[j]))
  }

  /** Stable insertion: before the first element that is not smaller. */
  function Insert<T>(x: T, s: seq<T>, key: T -> string): (r: seq<T>)
    ensures multiset(r) == multiset{x} + multiset(s)
  {
    if s == [] then [x]
    else if TextLe(key(x), key(s[0])) then [x] + s
    else
      assert s == [s[0]] + s[1..];
      [s[0]] + Insert(x, s[1..], key)
  }

  lemma SmallestFirst<T>(x: T, s: seq<T>, key: T -> string)
    requires SortedBy(s, key) && (forall y :: y in s ==> TextLe(key(x), key(y)))
    ensures SortedBy([x] + s, key)
  {
  }

  lemma FirstIsSmallest<T>(s: seq<T>, key: T -> string, y: T)
    requires SortedBy(s, key) && y in s
    ensures TextLe(key(s[0]), key(y))
  {
    TextLeTotal(key(s[0]), key(s[0]));
  }

  lemma {:induction false} InsertSorted<T>(x: T, s: seq<T>, key: T -> string)
    requires SortedBy(s, key)
    ensures SortedBy(Insert(x, s, key), key)
  {
    if s != [] {
      TextLeTotal(key(x), key(s[0]));
      if TextLe(key(x), key(s[0])) {
        forall y | y in s ensures TextLe(key(x), key(y)) {
          FirstIsSmallest(s, key, y);
          TextLeTransitive(key(x), key(s[0]), key(y));
        }
        SmallestFirst(x, s, key);
      } else {
        var rest := Insert(x, s[1..], key);
        InsertSorted(x, s[1..], key);
        forall y | y in rest ensures TextLe(key(s[0]), key(y)) {
          assert y in multiset(rest);
          if y != x { FirstIsSmallest(s, key, y); }
        }
        SmallestFirst(s[0], rest, key);
      }
    }
  }

  function SortBy<T>(s: seq<T>, key: T -> string): (r: seq<T>)
    ensures multiset(r) == multiset(s)
    ensures SortedBy(r, key)
    ensures |r| == |s|
  {
    if s == [] then []
    else
      assert s == [s[0]] + s[1..];
      InsertSorted(s[0], SortBy(s[1..], key), key);
      var r := Insert(s[0], SortBy(s[1..], key), key);
      assert |multiset(r)| == |r| && |multiset(s)| == |s|;
      r
  }

  ghost predicate DistinctKeys<T>(s: seq<T>, key: T -> string) {
    forall x, y :: x in s && y in s && key(x) == key(y) ==> x == y
  }

  /** Sorted permutations of one another start alike. */
  lemma HeadsAgree<T>(a: seq<T>, b: seq<T>, key: T -> string)
    requires a != [] && b != [] && SortedBy(a, key) && SortedBy(b, key)
    requires multiset(a) == multiset(b) && DistinctKeys(a, key)
    ensures a[0] == b[0]
  {
    assert a[0] in multiset(b) && b[0] in multiset(a);
    FirstIsSmallest(a, key, b[0]);
    FirstIsSmallest(b, key, a[0]);
    TextLeAntisymmetric(key(a[0]), key(b[0]));
  }

  lemma TailMultiset<T>(a: seq<T>)
    requires a != []
    ensures multiset(a[1..]) == multiset(a) - multiset{a[0]}
  {
    assert a == [a[0]] + a[1..];
  }

  /** Two sorted permutations of one another agree when a key names one element. */
  lemma {:induction false} SortedUnique<T>(a: seq<T>, b: seq<T>, key: T -> string)
    requires SortedBy(a, key) && SortedBy(b, key)
    requires multiset(a) == multiset(b)
    requires DistinctKeys(a, key)
    ensures a == b
    decreases |a|
  {
    assert |multiset(a)| == |a| && |multiset(b)| == |b|;
    if a != [] {
      HeadsAgree(a, b, key);
      TailMultiset(a);
      TailMultiset(b);
      SortedUnique(a[1..], b[1..], key);
      assert a == [a[0]] + a[1..] && b == [b[0]] + b[1..];
    }
  }

  /** Sorting depends only on the multiset of elements. */
  lemma SortByMultiset<T>(a: seq<T>, b: seq<T>, key: T -> string)
    requires multiset(a) == multiset(b)
    requires DistinctKeys(a, key)
    ensures SortBy(a, key) == SortBy(b, key)
  {
    forall x | x in SortBy(a, key) ensures x in a {
      assert x in multiset(SortBy(a, key));
    }
    SortedUnique(SortBy(a, key), SortBy(b, key), key);
  }

  /** The key of a plain sort of texts. */
  function Itself(s: string): string { s }

  function Without<T>(s: seq<T>, k: nat): seq<T>
    requires k < |s|
  {
    s[..k] + s[k + 1..]
  }

  lemma WithoutMultiset<T>(s: seq<T>, k: nat)
    requires k < |s|
    ensures multiset(s) == multiset{s[k]} + multiset(Without(s, k))
  {
    assert s == s[..k] + [s[k]] + s[k + 1..];
  }
}
