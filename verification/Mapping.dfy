/** Images of sequences under a function, up to their order. */
module Mapping {
  import opened Sorting

  function Map<A, B>(f: A -> B, s: seq<A>): (r: seq<B>)
    ensures |r| == |s| && forall i | 0 <= i < |s| :: r[i] == f(s[i])
  {
    if s == [] then [] else [f(s[0])] + Map(f, s[1..])
  }

  /** If g depends only on f, equal contents under f are equal contents under g. */
  lemma {:induction false} Factor<A, B, C>(f: A -> B, g: A -> C, a: seq<A>, b: seq<A>)
    requires multiset(Map(f, a)) == multiset(Map(f, b))
    requires forall x, y | x in a && y in b && f(x) == f(y) :: g(x) == g(y)
    ensures multiset(Map(g, a)) == multiset(Map(g, b))
  {
    if a == [] {
      assert |multiset(Map(f, b))| == 0;
    } else {
      var i := FactorHead(f, a, b);
      forall x | x in a[1..] ensures x in a {}
      forall y | y in Without(b, i) ensures y in b {}
      Factor(f, g, a[1..], Without(b, i));
      assert a[0] in a && b[i] in b;
      FactorStep(g, a, b, i);
    }
  }

  lemma FactorHead<A, B>(f: A -> B, a: seq<A>, b: seq<A>) returns (i: nat)
    requires multiset(Map(f, a)) == multiset(Map(f, b)) && a != []
    ensures i < |b| && f(b[i]) == f(a[0])
    ensures multiset(Map(f, a[1..])) == multiset(Map(f, Without(b, i)))
  {
    i := PermutationHead(Map(f, a), Map(f, b));
    assert Map(f, a)[1..] == Map(f, a[1..]);
    MapWithout(f, b, i);
  }

  lemma FactorStep<A, C>(g: A -> C, a: seq<A>, b: seq<A>, i: nat)
    requires a != [] && i < |b| && g(a[0]) == g(b[i])
    requires multiset(Map(g, a[1..])) == multiset(Map(g, Without(b, i)))
    ensures multiset(Map(g, a)) == multiset(Map(g, b))
  {
    MapWithout(g, b, i);
    assert Map(g, a)[1..] == Map(g, a[1..]);
    PutBack(Map(g, a), Map(g, b), i);
  }

  lemma PutBack<C>(s: seq<C>, t: seq<C>, i: nat)
    requires s != [] && i < |t| && s[0] == t[i] && multiset(s[1..]) == multiset(Without(t, i))
    ensures multiset(s) == multiset(t)
  {
    WithoutMultiset(t, i);
    assert s == [s[0]] + s[1..];
    assert t[i] in multiset(t);
  }

  lemma MapWithout<A, B>(f: A -> B, s: seq<A>, i: nat)
    requires i < |s|
    ensures Map(f, Without(s, i)) == Without(Map(f, s), i)
  {
    var rest := Without(s, i);
    forall k | 0 <= k < |rest| ensures Map(f, rest)[k] == Without(Map(f, s), i)[k] {
      WithoutAt(s, i, k);
      WithoutAt(Map(f, s), i, k);
    }
  }

  lemma WithoutAt<T>(s: seq<T>, i: nat, k: nat)
    requires i < |s| && k < |s| - 1
    ensures Without(s, i)[k] == s[if k < i then k else k + 1]
  {
  }

  lemma MapPermuted<A, B>(f: A -> B, a: seq<A>, b: seq<A>)
    requires multiset(a) == multiset(b)
    ensures multiset(Map(f, a)) == multiset(Map(f, b))
  {
    assert Map(Id, a) == a && Map(Id, b) == b;
    Factor(Id, f, a, b);
  }

  function Id<A>(x: A): A { x }

  lemma Counterpart<A, B>(f: A -> B, a: seq<A>, b: seq<A>, x: A) returns (y: A)
    requires multiset(Map(f, a)) == multiset(Map(f, b)) && x in a
    ensures y in b && f(x) == f(y)
  {
    var i :| 0 <= i < |a| && a[i] == x;
    assert Map(f, a)[i] in multiset(Map(f, b));
    var j :| 0 <= j < |b| && Map(f, b)[j] == f(x);
    y := b[j];
  }

  lemma MapMember<A, B>(f: A -> B, s: seq<A>, y: B) returns (x: A)
    requires y in Map(f, s)
    ensures x in s && f(x) == y
  {
    var i :| 0 <= i < |s| && Map(f, s)[i] == y;
    x := s[i];
  }
}
