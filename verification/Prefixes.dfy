/** Compaction of key prefixes: compactPrefixes in internal/services/s3/data.go and
    its twin in normalizeCaptureDefinition (internal/captureledger/identity.go). */
module Prefixes {
  import opened ByteStrings
  import opened Sorting

  /** Some prefix matches the key; strings.HasPrefix(key, p) is p <= key. */
  ghost predicate Covers(prefixes: seq<Bytes>, key: Bytes) {
    exists i | 0 <= i < |prefixes| :: prefixes[i] <= key
  }

  ghost predicate Distinct(s: seq<Bytes>) {
    forall i, j | 0 <= i < j < |s| :: s[i] != s[j]
  }

  ghost predicate Ascending(s: seq<Bytes>) {
    Sorted(Le, s) && Distinct(s)
  }

  /** No prefix of the list matches another one. */
  ghost predicate Antichain(s: seq<Bytes>) {
    forall p, q | p in s && q in s && q <= p :: p == q
  }

  /** Nothing else in the list is a prefix of p. */
  ghost predicate Minimal(s: seq<Bytes>, p: Bytes) {
    p in s && forall q | q in s && q <= p :: q == p
  }

  /** What compaction gives: the minimal prefixes, in order, each once. */
  ghost predicate CompactionOf(r: seq<Bytes>, s: seq<Bytes>) {
    Ascending(r) && forall p :: p in r <==> Minimal(s, p)
  }

  // ------------------------------------------------------------ the last kept

  /** Compaction up to some element of an ascending list. */
  ghost predicate Kept(out: seq<Bytes>, s: seq<Bytes>, n: nat)
    requires n <= |s|
  {
    Ascending(out) && Antichain(out) && From(out, s, n) && CoversAll(out, s, n)
  }

  ghost predicate From(out: seq<Bytes>, s: seq<Bytes>, n: nat)
    requires n <= |s|
  {
    forall k | 0 <= k < |out| :: out[k] in s[..n]
  }

  ghost predicate CoversAll(out: seq<Bytes>, s: seq<Bytes>, n: nat)
    requires n <= |s|
  {
    forall k | 0 <= k < n :: Covers(out, s[k])
  }

  lemma NotAfterNext(out: seq<Bytes>, s: seq<Bytes>, n: nat, q: Bytes)
    requires Ascending(s) && n < |s| && Kept(out, s, n) && q in out
    ensures Le(q, s[n]) && q != s[n]
  {
    var k :| 0 <= k < |out| && out[k] == q;
    var i :| 0 <= i < n && s[i] == q;
  }

  lemma LastIsGreatest(out: seq<Bytes>, q: Bytes)
    requires Ascending(out) && q in out
    ensures Le(q, out[|out| - 1])
  {
    LeTotal(q, q);
  }

  /** If the last kept prefix does not match the next one, no kept prefix does. */
  lemma OnlyLastMatters(out: seq<Bytes>, s: seq<Bytes>, n: nat, q: Bytes)
    requires Ascending(s) && n < |s| && Kept(out, s, n) && q in out && q <= s[n]
    ensures q == out[|out| - 1]
  {
    hide Ascending, From, CoversAll;
    var last := out[|out| - 1];
    NotAfterNext(out, s, n, last);
    LastIsGreatest(out, q);
    PrefixIsInterval(q, last, s[n]);
  }

  lemma AppendGreatest(out: seq<Bytes>, x: Bytes)
    requires Ascending(out) && forall q | q in out :: Le(q, x) && q != x
    ensures Ascending(out + [x])
  {
    forall k | 0 <= k < |out| ensures Le(out[k], x) && out[k] != x {
      assert out[k] in out;
    }
  }

  lemma KeepsAscending(out: seq<Bytes>, s: seq<Bytes>, n: nat)
    requires Ascending(s) && n < |s| && Kept(out, s, n)
    ensures Ascending(out + [s[n]])
  {
    hide Ascending, Antichain, Covers;
    forall q | q in out ensures Le(q, s[n]) && q != s[n] {
      NotAfterNext(out, s, n, q);
    }
    AppendGreatest(out, s[n]);
  }

  lemma KeepsAntichain(out: seq<Bytes>, s: seq<Bytes>, n: nat)
    requires Ascending(s) && n < |s| && Kept(out, s, n)
    requires out == [] || !(out[|out| - 1] <= s[n])
    ensures Antichain(out + [s[n]])
  {
    hide Covers, Ascending;
    forall p, q | p in out + [s[n]] && q in out + [s[n]] && q <= p ensures p == q {
      if p in out && q == s[n] {
        NotAfterNext(out, s, n, p);
        PrefixSortsFirst(q, p);
        LeAntisymmetric(p, q);
      } else if q in out && p == s[n] {
        OnlyLastMatters(out, s, n, q);
      }
    }
  }

  lemma CoversMore(out: seq<Bytes>, p: Bytes, key: Bytes)
    requires Covers(out, key) || p <= key
    ensures Covers(out + [p], key)
  {
    var more := out + [p];
    if Covers(out, key) {
      var i :| 0 <= i < |out| && out[i] <= key;
      assert more[i] <= key;
    } else {
      assert more[|out|] <= key;
    }
  }

  lemma KeepNext(out: seq<Bytes>, s: seq<Bytes>, n: nat)
    requires Ascending(s) && n < |s| && Kept(out, s, n)
    requires out == [] || !(out[|out| - 1] <= s[n])
    ensures Kept(out + [s[n]], s, n + 1)
  {
    KeepsAscending(out, s, n);
    KeepsAntichain(out, s, n);
    KeepsFrom(out, s, n);
    hide Ascending, Antichain, Covers, From;
    forall k | 0 <= k < n + 1 ensures Covers(out + [s[n]], s[k]) {
      CoversMore(out, s[n], s[k]);
    }
  }

  lemma NothingKept(s: seq<Bytes>)
    ensures Kept([], s, 0)
  {
  }

  lemma KeepsFrom(out: seq<Bytes>, s: seq<Bytes>, n: nat)
    requires n < |s| && From(out, s, n)
    ensures From(out + [s[n]], s, n + 1) && From(out, s, n + 1)
  {
    assert s[..n + 1] == s[..n] + [s[n]];
  }

  lemma SkipNext(out: seq<Bytes>, s: seq<Bytes>, n: nat)
    requires n < |s| && Kept(out, s, n) && out != [] && out[|out| - 1] <= s[n]
    ensures Kept(out, s, n + 1)
  {
    KeepsFrom(out, s, n);
  }

  lemma KeptIsMinimal(out: seq<Bytes>, s: seq<Bytes>, p: Bytes)
    requires Kept(out, s, |s|) && p in out
    ensures Minimal(s, p)
  {
    assert s[..|s|] == s;
    var at :| 0 <= at < |out| && out[at] == p;
    forall q | q in s && q <= p ensures q == p {
      var k :| 0 <= k < |s| && s[k] == q;
      assert Covers(out, s[k]);
      var i :| 0 <= i < |out| && out[i] <= s[k];
      assert out[i] in out && out[i] <= p;
    }
  }

  lemma MinimalIsKept(out: seq<Bytes>, s: seq<Bytes>, p: Bytes)
    requires Kept(out, s, |s|) && Minimal(s, p)
    ensures p in out
  {
    var k :| 0 <= k < |s| && s[k] == p;
    assert Covers(out, s[k]);
    var i :| 0 <= i < |out| && out[i] <= s[k];
    assert out[i] in s[..|s|] && s[..|s|] == s;
  }

  /** A covering antichain from the list consists of its minimal elements. */
  lemma KeptIsCompaction(out: seq<Bytes>, s: seq<Bytes>)
    requires Kept(out, s, |s|)
    ensures CompactionOf(out, s)
  {
    hide Minimal;
    forall p ensures p in out <==> Minimal(s, p) {
      if p in out {
        KeptIsMinimal(out, s, p);
      }
      if Minimal(s, p) {
        MinimalIsKept(out, s, p);
      }
    }
  }

  /** compactPrefixes on a sorted list without repetitions: comparing with the last
      kept prefix is enough. */
  method CompactPrefixes(s: seq<Bytes>) returns (out: seq<Bytes>)
    requires Ascending(s)
    ensures CompactionOf(out, s)
  {
    hide Ascending, CompactionOf;
    out := [];
    NothingKept(s);
    for n := 0 to |s|
      invariant Kept(out, s, n)
    {
      if out == [] || !(out[|out| - 1] <= s[n]) {
        KeepNext(out, s, n);
        out := out + [s[n]];
      } else {
        SkipNext(out, s, n);
      }
    }
    KeptIsCompaction(out, s);
  }

  /** slices.Compact on a sorted list. */
  method Compact(s: seq<Bytes>) returns (out: seq<Bytes>)
    requires Sorted(Le, s)
    ensures Ascending(out) && forall p :: p in out <==> p in s
  {
    out := [];
    for n := 0 to |s|
      invariant Ascending(out) && (forall p :: p in out <==> p in s[..n])
      invariant n > 0 ==> out != [] && out[|out| - 1] == s[n - 1]
    {
      assert s[..n + 1] == s[..n] + [s[n]];
      if out == [] || out[|out| - 1] != s[n] {
        AppendGreater(out, s, n);
        out := out + [s[n]];
      }
    }
    assert s[..|s|] == s;
  }

  lemma Between(a: Bytes, b: Bytes, c: Bytes)
    requires Le(a, b) && Le(b, c)
    ensures a == c ==> b == c
  {
    if a == c {
      LeAntisymmetric(b, c);
    }
  }

  lemma AppendGreater(out: seq<Bytes>, s: seq<Bytes>, n: nat)
    requires Sorted(Le, s) && n < |s| && Ascending(out) && forall p :: p in out <==> p in s[..n]
    requires n > 0 ==> out != [] && out[|out| - 1] == s[n - 1] != s[n]
    ensures Ascending(out + [s[n]])
  {
    forall q | q in out ensures Le(q, s[n]) && q != s[n] {
      assert q in s[..n];
      var i :| 0 <= i < n && s[i] == q;
      LeTotal(q, q);
      Between(q, s[n - 1], s[n]);
    }
    AppendGreatest(out, s[n]);
  }

  /** The prefixes of a capture and of its definition: sorted, without repetitions,
      compacted; no prefixes mean all keys. */
  method Normalize(prefixes: seq<Bytes>) returns (out: seq<Bytes>)
    ensures prefixes == [] ==> out == [[]]
    ensures prefixes != [] ==> CompactionOf(out, prefixes)
  {
    if prefixes == [] {
      return [[]];
    }
    var sorted := SortPrefixes(prefixes);
    var distinct := Compact(sorted);
    out := CompactPrefixes(distinct);
    SameCompaction(out, distinct, prefixes);
  }

  method SortPrefixes(prefixes: seq<Bytes>) returns (sorted: seq<Bytes>)
    ensures Sorted(Le, sorted) && forall p :: p in sorted <==> p in prefixes
  {
    ByteOrder();
    sorted := Sort(Le, prefixes);
    SortSorts(Le, prefixes);
    forall p ensures p in sorted <==> p in prefixes {
      assert p in multiset(sorted) <==> p in multiset(prefixes);
    }
  }

  lemma SameCompaction(out: seq<Bytes>, a: seq<Bytes>, b: seq<Bytes>)
    requires CompactionOf(out, a) && forall p :: p in a <==> p in b
    ensures CompactionOf(out, b)
  {
    forall p ensures Minimal(a, p) <==> Minimal(b, p) {}
  }

  // -------------------------------------------------------------- properties

  lemma {:induction false} AscendingUnique(a: seq<Bytes>, b: seq<Bytes>)
    requires Ascending(a) && Ascending(b) && forall p :: p in a <==> p in b
    ensures a == b
  {
    BothEmpty(a, b);
    if a != [] {
      SameFirst(a, b);
      forall p ensures p in a[1..] <==> p in b[1..] {
        assert a == [a[0]] + a[1..] && b == [b[0]] + b[1..];
        assert a[0] !in a[1..] && b[0] !in b[1..];
        assert p in a <==> p == a[0] || p in a[1..];
        assert p in b <==> p == b[0] || p in b[1..];
      }
      AscendingUnique(a[1..], b[1..]);
      SameHeadAndTail(a, b);
    }
  }

  lemma BothEmpty(a: seq<Bytes>, b: seq<Bytes>)
    requires forall p :: p in a <==> p in b
    ensures a == [] <==> b == []
  {
    assert a != [] ==> a[0] in a;
    assert b != [] ==> b[0] in b;
  }

  lemma SameFirst(a: seq<Bytes>, b: seq<Bytes>)
    requires Ascending(a) && Ascending(b) && a != [] && b != [] && forall p :: p in a <==> p in b
    ensures a[0] == b[0]
  {
    assert a[0] in b && b[0] in a;
    var i :| 0 <= i < |b| && b[i] == a[0];
    var j :| 0 <= j < |a| && a[j] == b[0];
    if i > 0 && j > 0 {
      LeAntisymmetric(a[0], b[0]);
    }
  }

  /** Every list has one compaction, and it depends on its elements only: neither
      their order nor repetitions matter. */
  lemma CompactionUnique(a: seq<Bytes>, b: seq<Bytes>, r: seq<Bytes>, t: seq<Bytes>)
    requires CompactionOf(r, a) && CompactionOf(t, b) && forall p :: p in a <==> p in b
    ensures r == t
  {
    SameCompaction(r, a, b);
    AscendingUnique(r, t);
  }

  /** Compacting twice changes nothing. */
  lemma CompactionIdempotent(s: seq<Bytes>, r: seq<Bytes>, t: seq<Bytes>)
    requires CompactionOf(r, s) && CompactionOf(t, r)
    ensures t == r
  {
    forall p ensures p in r <==> p in t {
      if p in r {
        forall q | q in r && q <= p ensures q == p {
          assert Minimal(s, q) && Minimal(s, p);
        }
        assert Minimal(r, p);
      }
      if p in t {
        assert Minimal(r, p);
      }
    }
    AscendingUnique(t, r);
  }

  lemma {:induction false} ShortestPrefix(s: seq<Bytes>, p: Bytes) returns (q: Bytes)
    requires p in s
    ensures Minimal(s, q) && q <= p
    decreases |p|
  {
    if Minimal(s, p) {
      q := p;
    } else {
      var shorter :| shorter in s && shorter <= p && shorter != p;
      q := ShortestPrefix(s, shorter);
    }
  }

  /** The compaction matches the same keys, and each of them exactly once. */
  lemma EachKeyOnce(s: seq<Bytes>, r: seq<Bytes>, key: Bytes)
    requires CompactionOf(r, s)
    ensures Covers(r, key) <==> Covers(s, key)
    ensures forall i, j | 0 <= i < |r| && 0 <= j < |r| && r[i] <= key && r[j] <= key :: i == j
  {
    if Covers(s, key) {
      var i :| 0 <= i < |s| && s[i] <= key;
      var q := ShortestPrefix(s, s[i]);
      assert q in r;
      var k :| 0 <= k < |r| && r[k] == q;
    }
    if Covers(r, key) {
      var i :| 0 <= i < |r| && r[i] <= key;
      assert Minimal(s, r[i]);
      var k :| 0 <= k < |s| && s[k] == r[i];
    }
    forall i, j | 0 <= i < |r| && 0 <= j < |r| && r[i] <= key && r[j] <= key ensures i == j {
      assert Minimal(s, r[i]) && Minimal(s, r[j]);
      Comparable(r[i], r[j], key);
    }
  }

  lemma Comparable(a: Bytes, b: Bytes, key: Bytes)
    requires a <= key && b <= key
    ensures a <= b || b <= a
  {
    if |a| <= |b| {
      assert a == key[..|a|] == b[..|a|];
    } else {
      assert b == key[..|b|] == a[..|b|];
    }
  }
}
