/** What sort.Slice and sort.Strings promise, for any comparison. */
module Sorting {
  import opened ByteStrings

  ghost predicate TotalPreorder<T(!new)>(le: (T, T) -> bool) {
    && (forall x, y :: le(x, y) || le(y, x))
    && (forall x, y, z :: le(x, y) && le(y, z) ==> le(x, z))
  }

  ghost predicate TotalOrder<T(!new)>(le: (T, T) -> bool) {
    && TotalPreorder(le)
    && (forall x, y :: le(x, y) && le(y, x) ==> x == y)
  }

  ghost predicate Sorted<T>(le: (T, T) -> bool, s: seq<T>) {
    forall i, j | 0 <= i < j < |s| :: le(s[i], s[j])
  }

  /** s is one of the results a sort of t may give. */
  ghost predicate SortOf<T>(le: (T, T) -> bool, s: seq<T>, t: seq<T>) {
    Sorted(le, s) && multiset(s) == multiset(t)
  }

  function Without<T>(s: seq<T>, i: nat): (r: seq<T>)
    requires i < |s|
    ensures |r| == |s| - 1
  {
    s[..i] + s[i + 1..]
  }

  lemma WithoutMultiset<T>(s: seq<T>, i: nat)
    requires i < |s|
    ensures multiset(Without(s, i)) == multiset(s) - multiset{s[i]}
  {
    assert s == s[..i] + [s[i]] + s[i + 1..];
  }

  /** A permutation of a nonempty sequence has its head somewhere, and what is
      left on both sides is a permutation again. */
  lemma PermutationHead<T>(a: seq<T>, b: seq<T>) returns (i: nat)
    requires multiset(a) == multiset(b) && a != []
    ensures i < |b| && b[i] == a[0] && multiset(a[1..]) == multiset(Without(b, i))
    ensures |a| == |b|
  {
    assert a[0] in multiset(b);
    i :| i < |b| && b[i] == a[0];
    WithoutMultiset(b, i);
    WithoutMultiset(a, 0);
    assert Without(a, 0) == a[1..];
    assert |a| == |multiset(a)| == |multiset(b)| == |b|;
  }

  lemma InsertAnywhere<T>(x: T, whole: seq<T>, left: seq<T>, right: seq<T>)
    requires multiset(whole) == multiset(left + right)
    ensures multiset([x] + whole) == multiset(left + ([x] + right))
  {
    assert multiset([x] + right) == multiset{x} + multiset(right);
  }

  function Insert<T>(le: (T, T) -> bool, s: seq<T>, x: T): (r: seq<T>)
    ensures |r| == |s| + 1
  {
    if s == [] then [x]
    else if le(x, s[0]) then [x] + s
    else [s[0]] + Insert(le, s[1..], x)
  }

  function Sort<T>(le: (T, T) -> bool, s: seq<T>): (r: seq<T>)
    ensures |r| == |s|
  {
    if s == [] then [] else Insert(le, Sort(le, s[..|s| - 1]), s[|s| - 1])
  }

  lemma {:induction false} InsertMultiset<T>(le: (T, T) -> bool, s: seq<T>, x: T)
    ensures multiset(Insert(le, s, x)) == multiset(s) + multiset{x}
  {
    if s != [] {
      assert s == [s[0]] + s[1..];
      if !le(x, s[0]) {
        InsertMultiset(le, s[1..], x);
      }
    }
  }

  lemma {:induction false} InsertSorted<T(!new)>(le: (T, T) -> bool, s: seq<T>, x: T)
    requires TotalPreorder(le) && Sorted(le, s)
    ensures Sorted(le, Insert(le, s, x))
  {
    if s != [] && !le(x, s[0]) {
      InsertSorted(le, s[1..], x);
      InsertMultiset(le, s[1..], x);
      var t := Insert(le, s[1..], x);
      forall i | 0 <= i < |t| ensures le(s[0], t[i]) {
        assert t[i] in multiset(t);
      }
    }
  }

  lemma {:induction false} SortMultiset<T>(le: (T, T) -> bool, s: seq<T>)
    ensures multiset(Sort(le, s)) == multiset(s)
  {
    if s != [] {
      SortMultiset(le, s[..|s| - 1]);
      InsertMultiset(le, Sort(le, s[..|s| - 1]), s[|s| - 1]);
      assert s == s[..|s| - 1] + [s[|s| - 1]];
    }
  }

  lemma {:induction false} SortSorts<T(!new)>(le: (T, T) -> bool, s: seq<T>)
    requires TotalPreorder(le)
    ensures SortOf(le, Sort(le, s), s)
  {
    SortMultiset(le, s);
    if s != [] {
      SortSorts(le, s[..|s| - 1]);
      InsertSorted(le, Sort(le, s[..|s| - 1]), s[|s| - 1]);
    }
  }

  ghost predicate TiesAreEqual<T>(le: (T, T) -> bool, s: seq<T>) {
    forall x, y {:trigger le(x, y), le(y, x)} | x in s && y in s && le(x, y) && le(y, x) :: x == y
  }

  lemma SortedHead<T(!new)>(le: (T, T) -> bool, a: seq<T>, b: seq<T>)
    requires Sorted(le, a) && Sorted(le, b) && multiset(a) == multiset(b) && TiesAreEqual(le, a)
    requires a != [] && b != []
    ensures a[0] == b[0]
  {
    assert a[0] in multiset(b) && b[0] in multiset(a);
    var i :| 0 <= i < |b| && b[i] == a[0];
    var j :| 0 <= j < |a| && a[j] == b[0];
    assert i == 0 || le(b[0], b[i]);
    assert j == 0 || le(a[0], a[j]);
  }

  lemma SortedTail<T(!new)>(le: (T, T) -> bool, a: seq<T>)
    requires a != [] && Sorted(le, a)
    ensures Sorted(le, a[1..]) && (TiesAreEqual(le, a) ==> TiesAreEqual(le, a[1..]))
    ensures multiset(a[1..]) == multiset(a) - multiset{a[0]}
  {
    forall x | x in a[1..] ensures x in a {}
    WithoutMultiset(a, 0);
    assert Without(a, 0) == a[1..];
  }

  lemma SameLength<T>(a: seq<T>, b: seq<T>)
    requires multiset(a) == multiset(b)
    ensures |a| == |b|
  {
    assert |multiset(a)| == |a| && |multiset(b)| == |b|;
  }

  lemma SameHeadAndTail<T>(a: seq<T>, b: seq<T>)
    requires a != [] && b != [] && a[0] == b[0] && a[1..] == b[1..]
    ensures a == b
  {
    assert a == [a[0]] + a[1..] && b == [b[0]] + b[1..];
  }

  /** Two sorted arrangements of the same elements are equal when elements that
      compare equal are equal. */
  lemma {:induction false} SortedUnique<T(!new)>(le: (T, T) -> bool, a: seq<T>, b: seq<T>)
    requires Sorted(le, a) && Sorted(le, b) && multiset(a) == multiset(b) && TiesAreEqual(le, a)
    ensures a == b
  {
    SameLength(a, b);
    if a != [] {
      SortedHead(le, a, b);
      SortedTail(le, a);
      SortedTail(le, b);
      SortedUnique(le, a[1..], b[1..]);
      SameHeadAndTail(a, b);
    }
  }

  /** A total order has exactly one sorted arrangement: the result of Sort. */
  lemma SortCanonical<T(!new)>(le: (T, T) -> bool, a: seq<T>, b: seq<T>)
    requires TotalOrder(le) && SortOf(le, a, b)
    ensures a == Sort(le, b)
  {
    SortSorts(le, b);
    SortedUnique(le, a, Sort(le, b));
  }

  lemma SortPermutation<T(!new)>(le: (T, T) -> bool, a: seq<T>, b: seq<T>)
    requires TotalOrder(le) && multiset(a) == multiset(b)
    ensures Sort(le, a) == Sort(le, b)
  {
    SortSorts(le, a);
    SortCanonical(le, Sort(le, a), b);
  }

  /** bytes.Compare is a total order. */
  lemma ByteOrder()
    ensures TotalOrder(Le)
  {
    forall a: Bytes, b: Bytes
      ensures Le(a, b) || Le(b, a)
      ensures Le(a, b) && Le(b, a) ==> a == b
    {
      LeTotal(a, b);
      if Le(a, b) && Le(b, a) { LeAntisymmetric(a, b); }
    }
    forall a: Bytes, b: Bytes, c: Bytes | Le(a, b) && Le(b, c) ensures Le(a, c) {
      LeTransitive(a, b, c);
    }
  }
}
