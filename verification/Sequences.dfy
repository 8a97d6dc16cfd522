/** Sequences of parts. */
module Sequences {
  function Flatten<T>(parts: seq<seq<T>>): seq<T> {
    if parts == [] then [] else parts[0] + Flatten(parts[1..])
  }

  lemma {:induction false} FlattenSplit<T>(a: seq<seq<T>>, b: seq<seq<T>>)
    ensures Flatten(a + b) == Flatten(a) + Flatten(b)
  {
    if a == [] {
      assert a + b == b;
    } else {
      assert (a + b)[1..] == a[1..] + b;
      FlattenSplit(a[1..], b);
    }
  }

  lemma {:induction false} FlattenShrinks<T>(parts: seq<seq<T>>, i: nat)
    requires i < |parts| && parts[i] != []
    ensures |Flatten(parts[i := parts[i][1..]])| == |Flatten(parts)| - 1
  {
    var after := parts[i := parts[i][1..]];
    if i == 0 {
      assert after[1..] == parts[1..];
    } else {
      assert after[1..] == parts[1..][i - 1 := parts[i][1..]];
      FlattenShrinks(parts[1..], i - 1);
    }
  }

  lemma {:induction false} FlattenMember<T>(parts: seq<seq<T>>, x: T) returns (i: nat)
    requires x in Flatten(parts)
    ensures i < |parts| && x in parts[i]
  {
    if x in parts[0] {
      i := 0;
    } else {
      i := FlattenMember(parts[1..], x);
      i := i + 1;
    }
  }

  lemma {:induction false} MemberFlatten<T>(parts: seq<seq<T>>, i: nat, x: T)
    requires i < |parts| && x in parts[i]
    ensures x in Flatten(parts)
  {
    if i > 0 {
      MemberFlatten(parts[1..], i - 1, x);
    }
  }

  lemma FlattenAppend<T>(parts: seq<seq<T>>, last: seq<T>)
    ensures Flatten(parts + [last]) == Flatten(parts) + last
  {
    FlattenSplit(parts, [last]);
    assert [last][1..] == [] && Flatten([last]) == last + [];
  }
}
