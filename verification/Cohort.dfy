/** The bounded cohort sample of internal/governance/cohort.go: a max-heap of
    the best candidates under a limit and a ceiling on retained bytes. */
module Cohort {
  import opened ByteStrings
  import opened Sorting
  import opened Heaps
  import opened Sequences
  import opened Wrappers

  const RANK_SIZE: nat := 32

  datatype Candidate = Candidate(rank: Bytes, value: Bytes) {
    function Size(): nat { |rank| + |value| }
  }

  /** compareCohortState(a, b) <= 0. */
  predicate CandidateLe(a: Candidate, b: Candidate) {
    if a.rank != b.rank then Le(a.rank, b.rank) else Le(a.value, b.value)
  }

  /** cohortMaxHeap.Less read as "may be the parent of": greatest first. */
  predicate Outranks(a: Candidate, b: Candidate) {
    CandidateLe(b, a)
  }

  function TotalSize(s: seq<Candidate>): nat {
    if s == [] then 0 else s[0].Size() + TotalSize(s[1..])
  }

  // ---------------------------------------------------------------- orders

  lemma CandidateOrder()
    ensures TotalOrder(CandidateLe)
  {
    forall a: Candidate, b: Candidate
      ensures CandidateLe(a, b) || CandidateLe(b, a)
      ensures CandidateLe(a, b) && CandidateLe(b, a) ==> a == b
    {
      LeTotal(a.rank, b.rank);
      LeTotal(a.value, b.value);
      if Le(a.rank, b.rank) && Le(b.rank, a.rank) { LeAntisymmetric(a.rank, b.rank); }
      if Le(a.value, b.value) && Le(b.value, a.value) { LeAntisymmetric(a.value, b.value); }
    }
    forall a: Candidate, b: Candidate, c: Candidate | CandidateLe(a, b) && CandidateLe(b, c)
      ensures CandidateLe(a, c)
    {
      CandidateTransitive(a, b, c);
    }
  }

  lemma CandidateTransitive(a: Candidate, b: Candidate, c: Candidate)
    requires CandidateLe(a, b) && CandidateLe(b, c)
    ensures CandidateLe(a, c)
  {
    if Le(a.rank, b.rank) && Le(b.rank, c.rank) {
      LeTransitive(a.rank, b.rank, c.rank);
      if a.rank == c.rank && a.rank != b.rank { LeAntisymmetric(a.rank, b.rank); }
    }
    if Le(a.value, b.value) && Le(b.value, c.value) { LeTransitive(a.value, b.value, c.value); }
  }

  lemma HeapOrder()
    ensures TotalPreorder(Outranks)
  {
    CandidateOrder();
    forall a: Candidate, b: Candidate, c: Candidate | Outranks(a, b) && Outranks(b, c)
      ensures Outranks(a, c)
    {
      CandidateTransitive(c, b, a);
    }
    forall a: Candidate, b: Candidate
      ensures Outranks(a, b) || Outranks(b, a)
    {
      assert CandidateLe(a, b) || CandidateLe(b, a);
    }
  }

  lemma {:induction false} SizeSplit(a: seq<Candidate>, b: seq<Candidate>)
    ensures TotalSize(a + b) == TotalSize(a) + TotalSize(b)
  {
    if a == [] {
      assert a + b == b;
    } else {
      assert (a + b)[1..] == a[1..] + b;
      SizeSplit(a[1..], b);
    }
  }

  lemma SizeOfAppend(s: seq<Candidate>, c: Candidate)
    ensures TotalSize(s + [c]) == TotalSize(s) + c.Size()
  {
    SizeSplit(s, [c]);
    assert [c][1..] == [];
  }

  lemma {:induction false} SizePermutation(a: seq<Candidate>, b: seq<Candidate>)
    requires multiset(a) == multiset(b)
    ensures TotalSize(a) == TotalSize(b)
  {
    if a == [] {
      assert |multiset(b)| == 0;
    } else {
      var i := PermutationHead(a, b);
      SizePermutation(a[1..], Without(b, i));
      SizeSplit(b[..i], b[i..]);
      SizeSplit(b[..i], b[i + 1..]);
      assert b == b[..i] + b[i..] && b[i..][1..] == b[i + 1..];
    }
  }

  // ------------------------------------------------------- what is retained

  function Take<T>(s: seq<T>, n: nat): seq<T> {
    if n < |s| then s[..n] else s
  }

  /** The `limit` smallest candidates of a set of offers, in order. */
  function Best(limit: nat, offers: seq<Candidate>): seq<Candidate> {
    Take(Sort(CandidateLe, offers), limit)
  }

  /** One offer seen from outside: retain the best, unless that is too large. */
  function Offer(limit: nat, ceiling: int, kept: seq<Candidate>, c: Candidate): Option<seq<Candidate>> {
    var next := Take(Insert(CandidateLe, kept, c), limit);
    if TotalSize(next) <= ceiling then Some(next) else None
  }

  /** A series of offers, abandoned at the first error. */
  function Run(limit: nat, ceiling: int, kept: seq<Candidate>, offers: seq<Candidate>): Option<seq<Candidate>> {
    if offers == [] then Some(kept)
    else
      var before := Run(limit, ceiling, kept, offers[..|offers| - 1]);
      if before.None? then None else Offer(limit, ceiling, before.value, offers[|offers| - 1])
  }

  /** RestoreOwned seen from outside. */
  function RestoreOne(limit: nat, ceiling: int, kept: seq<Candidate>, c: Candidate): Option<seq<Candidate>> {
    if |c.rank| == RANK_SIZE && |kept| < limit && TotalSize(kept) + c.Size() <= ceiling
    then Some(Insert(CandidateLe, kept, c)) else None
  }

  /** RestoreOwned, once for every saved candidate. */
  function Restore(limit: nat, ceiling: int, saved: seq<Candidate>): Option<seq<Candidate>> {
    if saved == [] then Some([])
    else
      var before := Restore(limit, ceiling, saved[..|saved| - 1]);
      if before.None? then None else RestoreOne(limit, ceiling, before.value, saved[|saved| - 1])
  }

  lemma {:induction false} TakeInsert(s: seq<Candidate>, x: Candidate, k: nat)
    ensures Take(Insert(CandidateLe, Take(s, k), x), k) == Take(Insert(CandidateLe, s, x), k)
  {
    if k == 0 || s == [] || |s| < k {
    } else if CandidateLe(x, s[0]) {
      assert Take([x] + Take(s, k), k) == Take([x] + s, k);
    } else {
      TakeInsert(s[1..], x, k - 1);
      var t := Take(s, k);
      assert t[0] == s[0] && t[1..] == Take(s[1..], k - 1);
      assert Take(Insert(CandidateLe, t, x), k) == [s[0]] + Take(Insert(CandidateLe, t[1..], x), k - 1);
      assert Take(Insert(CandidateLe, s, x), k) == [s[0]] + Take(Insert(CandidateLe, s[1..], x), k - 1);
    }
  }

  /** After each of the offers, the smallest so far fit under the ceiling. */
  ghost predicate AlwaysFits(limit: nat, ceiling: int, offers: seq<Candidate>) {
    && TotalSize(Best(limit, offers)) <= ceiling
    && (offers != [] ==> AlwaysFits(limit, ceiling, offers[..|offers| - 1]))
  }

  lemma BestSnoc(limit: nat, front: seq<Candidate>, last: Candidate)
    ensures Take(Insert(CandidateLe, Best(limit, front), last), limit) == Best(limit, front + [last])
  {
    assert (front + [last])[..|front|] == front;
    TakeInsert(Sort(CandidateLe, front), last, limit);
  }

  lemma RunSnoc(limit: nat, ceiling: int, kept: seq<Candidate>, front: seq<Candidate>, last: Candidate)
    ensures Run(limit, ceiling, kept, front + [last]) ==
            match Run(limit, ceiling, kept, front)
            case None => None
            case Some(before) => Offer(limit, ceiling, before, last)
  {
    assert (front + [last])[..|front|] == front;
  }

  /** After error-free offers exactly the smallest candidates are retained, and
      the offers are error-free exactly when, after each of them, the smallest so
      far fit under the ceiling. */
  lemma {:induction false} RunRetainsBest(limit: nat, ceiling: int, offers: seq<Candidate>)
    requires 0 <= ceiling
    ensures Run(limit, ceiling, [], offers) ==
            if AlwaysFits(limit, ceiling, offers) then Some(Best(limit, offers)) else None
  {
    if offers != [] {
      var front, last := offers[..|offers| - 1], offers[|offers| - 1];
      assert offers == front + [last];
      RunRetainsBest(limit, ceiling, front);
      RunSnoc(limit, ceiling, [], front, last);
      BestSnoc(limit, front, last);
    }
  }

  /** The smaller rank comes first, and among equal ranks the smaller value. */
  predicate RanksBefore(c: Candidate, d: Candidate) {
    Le(c.rank, d.rank) && (c.rank == d.rank ==> Le(c.value, d.value))
  }

  /** The sample is that many of the offers, and none that was left out has a smaller
      rank than one that was retained. */
  lemma RetainsSmallestRanks(limit: nat, ceiling: int, offers: seq<Candidate>)
    requires 0 <= ceiling && Run(limit, ceiling, [], offers).Some?
    ensures var kept := Run(limit, ceiling, [], offers).value;
            && |kept| == (if limit < |offers| then limit else |offers|) && multiset(kept) <= multiset(offers)
            && (forall i, j | 0 <= i < j < |kept| :: RanksBefore(kept[i], kept[j]))
            && forall c, d | c in kept && d in multiset(offers) - multiset(kept) :: RanksBefore(c, d)
  {
    RunRetainsBest(limit, ceiling, offers);
    CandidateOrder();
    SortSorts(CandidateLe, offers);
    hide Run, Sort, CandidateLe;
    FirstRanks(Sort(CandidateLe, offers), offers, limit);
  }

  lemma FirstRanks(all: seq<Candidate>, offers: seq<Candidate>, limit: nat)
    requires SortOf(CandidateLe, all, offers)
    ensures var kept := Take(all, limit);
            && |kept| == (if limit < |offers| then limit else |offers|) && multiset(kept) <= multiset(offers)
            && (forall i, j | 0 <= i < j < |kept| :: RanksBefore(kept[i], kept[j]))
            && forall c, d | c in kept && d in multiset(offers) - multiset(kept) :: RanksBefore(c, d)
  {
    var kept := Take(all, limit);
    SameLength(all, offers);
    assert all == kept + all[|kept|..];
    forall i, j | 0 <= i < j < |kept| ensures RanksBefore(kept[i], kept[j]) {
      OrderedByRank(all[i], all[j]);
    }
    forall c, d | c in kept && d in multiset(offers) - multiset(kept) ensures RanksBefore(c, d) {
      hide Take, CandidateLe;
      BeyondRanks(kept, all[|kept|..], c, d);
    }
  }

  lemma BeyondRanks(kept: seq<Candidate>, rest: seq<Candidate>, c: Candidate, d: Candidate)
    requires Sorted(CandidateLe, kept + rest) && c in kept && d in multiset(kept + rest) - multiset(kept)
    ensures RanksBefore(c, d)
  {
    assert d in multiset(rest);
    var i :| 0 <= i < |kept| && kept[i] == c;
    var j :| 0 <= j < |rest| && rest[j] == d;
    assert (kept + rest)[i] == c && (kept + rest)[|kept| + j] == d;
    OrderedByRank(c, d);
  }

  lemma OrderedByRank(c: Candidate, d: Candidate)
    requires CandidateLe(c, d)
    ensures RanksBefore(c, d)
  {
    LeTotal(c.rank, c.rank);
  }

  /** What is held against the ceiling: the bytes of all ranks and values. */
  lemma {:induction false} SizeOfSample(s: seq<Candidate>)
    requires forall c | c in s :: |c.rank| == RANK_SIZE
    ensures TotalSize(s) == RANK_SIZE * |s| + |Flatten(ValuesOf(s))|
  {
    if s != [] {
      assert ValuesOf(s)[1..] == ValuesOf(s[1..]);
      SizeOfSample(s[1..]);
    }
  }

  /** Two orders of the same offers that both finish retain the same sample. */
  lemma OrderIndependence(limit: nat, ceiling: int, a: seq<Candidate>, b: seq<Candidate>)
    requires 0 <= ceiling && multiset(a) == multiset(b)
    requires Run(limit, ceiling, [], a).Some? && Run(limit, ceiling, [], b).Some?
    ensures Run(limit, ceiling, [], a) == Run(limit, ceiling, [], b)
  {
    CandidateOrder();
    RunRetainsBest(limit, ceiling, a);
    RunRetainsBest(limit, ceiling, b);
    SortPermutation(CandidateLe, a, b);
  }

  /** When the smallest candidates do not fit, no order of the offers finishes. */
  lemma OversizeAlwaysErrs(limit: nat, ceiling: int, a: seq<Candidate>, b: seq<Candidate>)
    requires 0 <= ceiling && multiset(a) == multiset(b)
    requires TotalSize(Best(limit, a)) > ceiling
    ensures Run(limit, ceiling, [], b).None?
  {
    CandidateOrder();
    RunRetainsBest(limit, ceiling, b);
    SortPermutation(CandidateLe, a, b);
  }

  lemma RunTwo(ceiling: int, c: Candidate, d: Candidate)
    ensures Run(1, ceiling, [], [c, d]) ==
            if c.Size() > ceiling then None
            else if CandidateLe(d, c) then (if d.Size() > ceiling then None else Some([d]))
            else Some([c])
  {
    assert [] + [c] == [c] && [c] + [d] == [c, d];
    RunSnoc(1, ceiling, [], [], c);
    RunSnoc(1, ceiling, [], [c], d);
    InsertSize([], c);
    var both := Insert(CandidateLe, [c], d);
    assert [c][1..] == [] && Insert(CandidateLe, [], d) == [d];
    assert both == if CandidateLe(d, c) then [d, c] else [c, d];
    assert Take(both, 1) == if CandidateLe(d, c) then [d] else [c];
    SizeOfAppend([], d);
    SizeOfAppend([], c);
    assert [] + [d] == [d];
  }

  // ------------------------------------------------- errors and the scan order

  /** Any `limit` of the candidates fit under the ceiling. */
  ghost predicate AnyFit(limit: nat, ceiling: int, a: seq<Candidate>) {
    forall t: seq<Candidate> | multiset(t) <= multiset(a) && |t| <= limit :: TotalSize(t) <= ceiling
  }

  ghost predicate Finishes(limit: nat, ceiling: int, b: seq<Candidate>) {
    Run(limit, ceiling, [], b).Some?
  }

  lemma BestIsPart(limit: nat, offers: seq<Candidate>)
    ensures multiset(Best(limit, offers)) <= multiset(offers) && |Best(limit, offers)| <= limit
  {
    var sorted := Sort(CandidateLe, offers);
    SortMultiset(CandidateLe, offers);
    assert sorted == Take(sorted, limit) + sorted[|Take(sorted, limit)|..];
  }

  lemma {:induction false} FitsThroughout(limit: nat, ceiling: int, a: seq<Candidate>, offers: seq<Candidate>)
    requires AnyFit(limit, ceiling, a) && multiset(offers) <= multiset(a)
    ensures AlwaysFits(limit, ceiling, offers)
    decreases |offers|
  {
    hide Best, TotalSize;
    BestIsPart(limit, offers);
    if offers != [] {
      var front, last := offers[..|offers| - 1], offers[|offers| - 1];
      assert offers == front + [last];
      assert multiset(offers) == multiset(front) + multiset{last};
      FitsThroughout(limit, ceiling, a, front);
    }
  }

  /** The candidates that are not in the part t. */
  lemma {:induction false} Remainder(t: seq<Candidate>, a: seq<Candidate>) returns (rest: seq<Candidate>)
    requires multiset(t) <= multiset(a)
    ensures multiset(t + rest) == multiset(a)
    decreases |t|
  {
    if t == [] {
      rest := a;
      assert t + rest == a;
    } else {
      var others := WithoutHead(t, a);
      rest := Remainder(t[1..], others);
      assert t + rest == [t[0]] + (t[1..] + rest);
    }
  }

  lemma WithoutHead(t: seq<Candidate>, a: seq<Candidate>) returns (others: seq<Candidate>)
    requires t != [] && multiset(t) <= multiset(a)
    ensures multiset(t[1..]) <= multiset(others) && multiset(a) == multiset{t[0]} + multiset(others)
  {
    assert t[0] in multiset(t);
    var i :| 0 <= i < |a| && a[i] == t[0];
    others := Without(a, i);
    WithoutMultiset(a, i);
    WithoutMultiset(t, 0);
    assert Without(t, 0) == t[1..];
  }

  lemma {:induction false} FitsBefore(limit: nat, ceiling: int, front: seq<Candidate>, rest: seq<Candidate>)
    requires AlwaysFits(limit, ceiling, front + rest)
    ensures AlwaysFits(limit, ceiling, front)
    decreases |rest|
  {
    if rest == [] {
      assert front + rest == front;
    } else {
      assert (front + rest)[..|front + rest| - 1] == front + rest[..|rest| - 1];
      FitsBefore(limit, ceiling, front, rest[..|rest| - 1]);
    }
  }

  /** Every order of the offers finishes exactly if any `limit` of the candidates
      fit under the ceiling. */
  lemma EveryOrderFinishes(limit: nat, ceiling: int, a: seq<Candidate>)
    requires 0 <= ceiling
    ensures (forall b | multiset(b) == multiset(a) :: Finishes(limit, ceiling, b)) <==> AnyFit(limit, ceiling, a)
  {
    hide Best, Run;
    if AnyFit(limit, ceiling, a) {
      forall b | multiset(b) == multiset(a) ensures Finishes(limit, ceiling, b) {
        FitsThroughout(limit, ceiling, a, b);
        RunRetainsBest(limit, ceiling, b);
      }
    }
    if forall b | multiset(b) == multiset(a) :: Finishes(limit, ceiling, b) {
      forall t: seq<Candidate> | multiset(t) <= multiset(a) && |t| <= limit ensures TotalSize(t) <= ceiling {
        var rest := Remainder(t, a);
        assert Finishes(limit, ceiling, t + rest);
        RunRetainsBest(limit, ceiling, t + rest);
        FitsBefore(limit, ceiling, t, rest);
        WholeIsBest(limit, t);
      }
    }
  }

  lemma WholeIsBest(limit: nat, t: seq<Candidate>)
    requires |t| <= limit
    ensures TotalSize(Best(limit, t)) == TotalSize(t)
  {
    SortMultiset(CandidateLe, t);
    SizePermutation(Sort(CandidateLe, t), t);
    assert |multiset(Sort(CandidateLe, t))| == |multiset(t)|;
  }

  /** In ascending order nothing is displaced. */
  lemma {:induction false} AscendingFits(limit: nat, ceiling: int, sorted: seq<Candidate>, n: nat)
    requires Sorted(CandidateLe, sorted) && n <= |sorted| && TotalSize(Take(sorted, limit)) <= ceiling
    ensures AlwaysFits(limit, ceiling, sorted[..n])
    decreases n
  {
    hide Sort;
    CandidateOrder();
    SortCanonical(CandidateLe, sorted[..n], sorted[..n]);
    var part, all := Take(sorted[..n], limit), Take(sorted, limit);
    assert all == part + all[|part|..];
    SizeSplit(part, all[|part|..]);
    if n > 0 {
      assert sorted[..n][..n - 1] == sorted[..n - 1];
      AscendingFits(limit, ceiling, sorted, n - 1);
    }
  }

  /** Some order of the offers finishes exactly if the smallest candidates fit. */
  lemma SomeOrderFinishes(limit: nat, ceiling: int, a: seq<Candidate>)
    requires 0 <= ceiling
    ensures (exists b :: multiset(b) == multiset(a) && Finishes(limit, ceiling, b))
            <==> TotalSize(Best(limit, a)) <= ceiling
  {
    hide Run;
    if TotalSize(Best(limit, a)) <= ceiling {
      var b := Sort(CandidateLe, a);
      CandidateOrder();
      SortSorts(CandidateLe, a);
      SortMultiset(CandidateLe, a);
      AscendingFits(limit, ceiling, b, |b|);
      assert b[..|b|] == b;
      RunRetainsBest(limit, ceiling, b);
      assert multiset(b) == multiset(a) && Finishes(limit, ceiling, b);
    } else {
      forall b | multiset(b) == multiset(a) ensures !Finishes(limit, ceiling, b) {
        OversizeAlwaysErrs(limit, ceiling, a, b);
      }
    }
  }

  /** Whether a capture errs is the same in every scan order exactly if any `limit` of
      the candidates fit, or not even the smallest do. */
  lemma OrderMatters(limit: nat, ceiling: int, a: seq<Candidate>)
    requires 0 <= ceiling
    ensures (forall b, c | multiset(b) == multiset(a) && multiset(c) == multiset(a) ::
               Finishes(limit, ceiling, b) <==> Finishes(limit, ceiling, c))
            <==> AnyFit(limit, ceiling, a) || TotalSize(Best(limit, a)) > ceiling
  {
    hide Finishes, AnyFit, Best;
    EveryOrderFinishes(limit, ceiling, a);
    SomeOrderFinishes(limit, ceiling, a);
  }

  /** A concrete case: a large candidate errs before a smaller one would have
      displaced it. */
  lemma ErrorDependsOnOrder() returns (limit: nat, ceiling: int, a: seq<Candidate>, b: seq<Candidate>)
    ensures multiset(a) == multiset(b) && forall c | c in a :: |c.rank| == RANK_SIZE
    ensures Run(limit, ceiling, [], a).Some? && Run(limit, ceiling, [], b).None?
  {
    var small := Candidate(seq(RANK_SIZE, _ => 0), [1]);
    var large := Candidate(seq(RANK_SIZE, _ => 1), [1, 1]);
    assert small.rank[0] == 0 && large.rank[0] == 1 && !CandidateLe(large, small);
    RunTwo(33, small, large);
    RunTwo(33, large, small);
    limit, ceiling, a, b := 1, 33, [small, large], [large, small];
    assert multiset(a) == multiset{small, large} == multiset(b);
  }

  lemma {:induction false} RestoreAny(limit: nat, ceiling: int, saved: seq<Candidate>)
    requires |saved| <= limit && TotalSize(saved) <= ceiling
    requires forall c | c in saved :: |c.rank| == RANK_SIZE
    ensures Restore(limit, ceiling, saved) == Some(Sort(CandidateLe, saved))
  {
    if saved != [] {
      var last := |saved| - 1;
      assert saved == saved[..last] + [saved[last]];
      SizeOfAppend(saved[..last], saved[last]);
      RestoreAny(limit, ceiling, saved[..last]);
      SortMultiset(CandidateLe, saved[..last]);
      SizePermutation(Sort(CandidateLe, saved[..last]), saved[..last]);
    }
  }

  /** A series of offers in two parts. */
  lemma {:induction false} RunFrom(limit: nat, ceiling: int, kept: seq<Candidate>, a: seq<Candidate>, b: seq<Candidate>)
    ensures Run(limit, ceiling, kept, a + b) ==
            if Run(limit, ceiling, kept, a).None? then None
            else Run(limit, ceiling, Run(limit, ceiling, kept, a).value, b)
    decreases |b|
  {
    hide Offer;
    if b == [] {
      assert a + b == a;
    } else {
      assert (a + b)[..|a + b| - 1] == a + b[..|b| - 1];
      RunFrom(limit, ceiling, kept, a, b[..|b| - 1]);
    }
  }

  /** Resuming: the sample saved after the offers `a`, visited and restored in
      any order, goes through all later offers exactly as if nothing happened. */
  lemma ResumeIsTransparent(limit: nat, ceiling: int, a: seq<Candidate>, saved: seq<Candidate>, b: seq<Candidate>)
    requires 0 <= ceiling && Run(limit, ceiling, [], a).Some?
    requires multiset(saved) == multiset(Run(limit, ceiling, [], a).value)
    requires forall c | c in a :: |c.rank| == RANK_SIZE
    ensures Restore(limit, ceiling, saved).Some?
    ensures Run(limit, ceiling, Restore(limit, ceiling, saved).value, b) == Run(limit, ceiling, [], a + b)
  {
    RunRetainsBest(limit, ceiling, a);
    CandidateOrder();
    SortSorts(CandidateLe, a);
    var kept := Best(limit, a);
    assert |saved| == |multiset(saved)| == |multiset(kept)| == |kept|;
    forall c | c in saved ensures |c.rank| == RANK_SIZE {
      assert c in multiset(saved) && c in kept;
      assert c in Sort(CandidateLe, a) && c in multiset(Sort(CandidateLe, a));
      assert c in multiset(a);
    }
    SizePermutation(saved, kept);
    RestoreAny(limit, ceiling, saved);
    SortCanonical(CandidateLe, kept, saved);
    RunFrom(limit, ceiling, [], a, b);
  }

  // ------------------------------------------------------------- the heap

  lemma LastIsGreatest(kept: seq<Candidate>, items: seq<Candidate>)
    requires kept == Sort(CandidateLe, items) && IsHeap(Outranks, items) && items != []
    ensures kept[|kept| - 1] == items[0]
  {
    SortedSample(items);
    var last := kept[|kept| - 1];
    assert last in multiset(kept) && items[0] in multiset(items);
    RootIsGreatest(items, last);
    var j :| 0 <= j < |kept| && kept[j] == items[0];
    CandidateLeReflexive(last);
    assert CandidateLe(kept[j], last);
    CandidateAntisymmetric(items[0], last);
  }

  lemma SortedSample(items: seq<Candidate>)
    ensures Sorted(CandidateLe, Sort(CandidateLe, items)) && multiset(Sort(CandidateLe, items)) == multiset(items)
  {
    CandidateOrder();
    SortSorts(CandidateLe, items);
  }

  lemma RootIsGreatest(items: seq<Candidate>, c: Candidate)
    requires IsHeap(Outranks, items) && c in items
    ensures CandidateLe(c, items[0])
  {
    HeapOrder();
    var i :| 0 <= i < |items| && items[i] == c;
    RootIsFirst(Outranks, items, i);
  }

  lemma CandidateLeReflexive(c: Candidate)
    ensures CandidateLe(c, c)
  {
    LeTotal(c.value, c.value);
  }

  lemma CandidateAntisymmetric(a: Candidate, b: Candidate)
    requires CandidateLe(a, b) && CandidateLe(b, a)
    ensures a == b
  {
    CandidateOrder();
  }

  lemma InsertAfterAll(kept: seq<Candidate>, c: Candidate)
    requires Sorted(CandidateLe, kept) && forall x | x in kept :: CandidateLe(x, c)
    ensures Insert(CandidateLe, kept, c) == kept + [c]
  {
    CandidateOrder();
    InsertSorted(CandidateLe, kept, c);
    InsertMultiset(CandidateLe, kept, c);
    SortedUnique(CandidateLe, kept + [c], Insert(CandidateLe, kept, c));
  }

  lemma {:induction false} InsertBeforeLast(kept: seq<Candidate>, last: Candidate, c: Candidate)
    requires CandidateLe(c, last)
    ensures Insert(CandidateLe, kept + [last], c) == Insert(CandidateLe, kept, c) + [last]
  {
    if kept == [] {
      assert kept + [last] == [last];
    } else {
      assert (kept + [last])[1..] == kept[1..] + [last];
      if !CandidateLe(c, kept[0]) {
        InsertBeforeLast(kept[1..], last, c);
      }
    }
  }

  /** An offer on a full sample displaces the greatest or changes nothing. */
  lemma OfferFull(kept: seq<Candidate>, c: Candidate)
    requires Sorted(CandidateLe, kept) && kept != []
    ensures var last := kept[|kept| - 1];
            var next := Take(Insert(CandidateLe, kept, c), |kept|);
            if CandidateLe(last, c) then next == kept
            else && Sorted(CandidateLe, next)
                 && multiset(next) == multiset(kept) - multiset{last} + multiset{c}
                 && TotalSize(next) == TotalSize(kept) - last.Size() + c.Size()
  {
    CandidateOrder();
    var front, last := kept[..|kept| - 1], kept[|kept| - 1];
    assert kept == front + [last];
    if CandidateLe(last, c) {
      forall x | x in kept ensures CandidateLe(x, c) {
        var i :| 0 <= i < |kept| && kept[i] == x;
        assert CandidateLe(kept[i], last);
      }
      InsertAfterAll(kept, c);
    } else {
      InsertBeforeLast(front, last, c);
      assert Take(Insert(CandidateLe, kept, c), |kept|) == Insert(CandidateLe, front, c);
      InsertSorted(CandidateLe, front, c);
      InsertMultiset(CandidateLe, front, c);
      assert multiset(kept) == multiset(front) + multiset{last};
      InsertSize(front, c);
      SizeOfAppend(front, last);
    }
  }

  lemma KeptAfterPush(items: seq<Candidate>, c: Candidate, pushed: seq<Candidate>)
    requires multiset(pushed) == multiset(items) + multiset{c}
    ensures |pushed| == |items| + 1
    ensures Sort(CandidateLe, pushed) == Insert(CandidateLe, Sort(CandidateLe, items), c)
    ensures TotalSize(pushed) == TotalSize(items) + c.Size()
    ensures TotalSize(Sort(CandidateLe, pushed)) == TotalSize(pushed)
  {
    CandidateOrder();
    SortSorts(CandidateLe, items);
    var kept := Sort(CandidateLe, items);
    InsertSorted(CandidateLe, kept, c);
    InsertMultiset(CandidateLe, kept, c);
    SortCanonical(CandidateLe, Insert(CandidateLe, kept, c), pushed);
    assert |pushed| == |multiset(pushed)|;
    SizeOfAppend(items, c);
    SizePermutation(pushed, items + [c]);
    SortMultiset(CandidateLe, pushed);
    SizePermutation(Sort(CandidateLe, pushed), pushed);
  }

  /** An offer on a full sample, in terms of the heap. */
  lemma KeptWhenFull(items: seq<Candidate>, c: Candidate)
    requires IsHeap(Outranks, items) && items != []
    ensures var kept := Sort(CandidateLe, items);
            var next := Take(Insert(CandidateLe, kept, c), |items|);
            if CandidateLe(items[0], c) then next == kept && TotalSize(next) == TotalSize(items)
            else && Sorted(CandidateLe, next)
                 && multiset(next) == multiset(items) - multiset{items[0]} + multiset{c}
                 && TotalSize(next) == TotalSize(items) - items[0].Size() + c.Size()
  {
    var kept := Sort(CandidateLe, items);
    LastIsGreatest(kept, items);
    assert Sorted(CandidateLe, kept) by { CandidateOrder(); SortSorts(CandidateLe, items); }
    OfferFull(kept, c);
    SortMultiset(CandidateLe, items);
    SizePermutation(kept, items);
  }

  lemma KeptAfterReplace(items: seq<Candidate>, c: Candidate, replaced: seq<Candidate>)
    requires IsHeap(Outranks, items) && items != [] && !CandidateLe(items[0], c)
    requires multiset(replaced) + multiset{items[0]} == multiset(items) + multiset{c}
    ensures |replaced| == |items|
    ensures Sort(CandidateLe, replaced) == Take(Insert(CandidateLe, Sort(CandidateLe, items), c), |items|)
  {
    KeptWhenFull(items, c);
    ReplaceMultiset(items, c, replaced);
    SortedIs(Take(Insert(CandidateLe, Sort(CandidateLe, items), c), |items|), replaced);
  }

  lemma SortedIs(sorted: seq<Candidate>, s: seq<Candidate>)
    requires Sorted(CandidateLe, sorted) && multiset(sorted) == multiset(s)
    ensures Sort(CandidateLe, s) == sorted
  {
    CandidateOrder();
    SortCanonical(CandidateLe, sorted, s);
  }

  lemma ReplaceMultiset(items: seq<Candidate>, c: Candidate, replaced: seq<Candidate>)
    requires items != []
    requires multiset(replaced) + multiset{items[0]} == multiset(items) + multiset{c}
    ensures |replaced| == |items| && multiset(replaced) == multiset(items) - multiset{items[0]} + multiset{c}
  {
    var whole, part := multiset(items), multiset(replaced);
    assert items[0] in whole;
    assert part == part + multiset{items[0]} - multiset{items[0]} == whole + multiset{c} - multiset{items[0]};
    assert |replaced| == |multiset(replaced)| && |items| == |multiset(items)|;
  }

  lemma SortSize(s: seq<Candidate>)
    ensures TotalSize(Sort(CandidateLe, s)) == TotalSize(s)
  {
    SortMultiset(CandidateLe, s);
    SizePermutation(Sort(CandidateLe, s), s);
  }

  /** What Offer decides, in terms of the heap and its byte count. */
  lemma OfferOnHeap(limit: nat, items: seq<Candidate>, kept: seq<Candidate>, c: Candidate)
    requires IsHeap(Outranks, items) && 0 < limit && |items| <= limit && kept == Sort(CandidateLe, items)
    ensures TotalSize(Take(Insert(CandidateLe, kept, c), limit)) ==
            if |items| < limit then TotalSize(items) + c.Size()
            else if CandidateLe(items[0], c) then TotalSize(items)
            else TotalSize(items) - items[0].Size() + c.Size()
    ensures |items| == limit && CandidateLe(items[0], c) ==> Take(Insert(CandidateLe, kept, c), limit) == kept
  {
    if |items| < limit {
      InsertSize(kept, c);
      SortSize(items);
    } else {
      KeptWhenFull(items, c);
    }
  }

  lemma InsertSize(kept: seq<Candidate>, c: Candidate)
    ensures TotalSize(Insert(CandidateLe, kept, c)) == TotalSize(kept) + c.Size()
  {
    InsertMultiset(CandidateLe, kept, c);
    SizeOfAppend(kept, c);
    SizePermutation(Insert(CandidateLe, kept, c), kept + [c]);
  }

  method PushCandidate(items: seq<Candidate>, c: Candidate) returns (r: seq<Candidate>)
    requires IsHeap(Outranks, items)
    ensures IsHeap(Outranks, r) && multiset(r) == multiset(items) + multiset{c}
  {
    HeapOrder();
    r := Push(Outranks, items, c);
  }

  method ReplaceGreatest(items: seq<Candidate>, c: Candidate) returns (r: seq<Candidate>)
    requires IsHeap(Outranks, items) && items != []
    ensures IsHeap(Outranks, r) && multiset(r) + multiset{items[0]} == multiset(items) + multiset{c}
  {
    HeapOrder();
    r := ReplaceRoot(Outranks, items, c);
  }

  class Selection {
    const rankOf: seq<Bytes> -> Bytes
    const limit: nat
    const ceiling: int
    var items: seq<Candidate>
    var retainedBytes: int

    /** The heap of the type, whatever `retainedBytes` says. */
    ghost predicate Shaped()
      reads this
    {
      0 < limit && |items| <= limit && IsHeap(Outranks, items)
    }

    ghost predicate Valid()
      reads this
    {
      Shaped() && retainedBytes == TotalSize(items) && retainedBytes <= ceiling
    }

    /** The retained candidates, independently of their place in the heap. */
    ghost function Kept(): seq<Candidate>
      reads this
    {
      Sort(CandidateLe, items)
    }

    /** NewSelection: replays a saved state through the unchecked insertion. */
    constructor (rankOf: seq<Bytes> -> Bytes, limit: nat, ceiling: int, state: seq<Candidate>)
      requires 0 < limit && RANK_SIZE <= ceiling
      ensures this.rankOf == rankOf && this.limit == limit && this.ceiling == ceiling
      ensures Shaped() && Kept() == Best(limit, state) && retainedBytes == TotalSize(state)
      ensures state == [] ==> Valid()
    {
      this.rankOf, this.limit, this.ceiling := rankOf, limit, ceiling;
      this.items, this.retainedBytes := [], 0;
      new;
      for i := 0 to |state|
        invariant Shaped() && Kept() == Best(limit, state[..i]) && retainedBytes == TotalSize(state[..i])
      {
        OfferRanked(state[i]);
        retainedBytes := retainedBytes + state[i].Size();
        BestStep(limit, state, i);
      }
      assert state[..|state|] == state;
    }

    method OfferRanked(c: Candidate)
      requires Shaped()
      modifies this`items
      ensures Shaped() && Kept() == Take(Insert(CandidateLe, old(Kept()), c), limit)
      ensures |old(items)| < limit ==> |items| == |old(items)| + 1
      ensures TotalSize(items) == TotalSize(Kept())
    {
      if |items| < limit {
        items := PushCandidate(items, c);
        KeptAfterPush(old(items), c, items);
      } else {
        KeptWhenFull(items, c);
        if !CandidateLe(items[0], c) {
          items := ReplaceGreatest(items, c);
          KeptAfterReplace(old(items), c, items);
        }
      }
      SortSize(items);
    }

    /** Offers one governed item; an error leaves the sample as it was. */
    method OfferChecked(keyValues: seq<Bytes>, value: Bytes) returns (ok: bool)
      requires Valid()
      modifies this
      ensures Valid()
      ensures (if ok then Some(Kept()) else None) ==
              Offer(limit, ceiling, old(Kept()), Candidate(rankOf(keyValues), value))
      ensures !ok ==> items == old(items)
    {
      var c := Candidate(rankOf(keyValues), value);
      OfferOnHeap(limit, items, Kept(), c);
      if |items| < limit {
        if retainedBytes + c.Size() > ceiling {
          return false;
        }
        OfferRanked(c);
        retainedBytes := retainedBytes + c.Size();
        return true;
      }
      if !CandidateLe(items[0], c) {
        var size := retainedBytes - items[0].Size() + c.Size();
        if size > ceiling {
          return false;
        }
        OfferRanked(c);
        retainedBytes := size;
      }
      return true;
    }

    /** Takes one authenticated candidate of a checkpoint back. */
    method RestoreOwned(c: Candidate) returns (ok: bool)
      requires Valid()
      modifies this
      ensures Valid()
      ensures (if ok then Some(Kept()) else None) == RestoreOne(limit, ceiling, old(Kept()), c)
      ensures !ok ==> items == old(items)
    {
      SortSize(items);
      if |c.rank| != RANK_SIZE {
        return false;
      }
      if |items| >= limit || retainedBytes + c.Size() > ceiling {
        return false;
      }
      items := PushCandidate(items, c);
      KeptAfterPush(old(items), c, items);
      retainedBytes := retainedBytes + c.Size();
      return true;
    }

    /** The order in which Visit and State expose the sample: heap order. */
    method Visit() returns (saved: seq<Candidate>)
      requires Valid()
      ensures multiset(saved) == multiset(Kept())
    {
      SortMultiset(CandidateLe, items);
      saved := items;
    }

    /** Values: the retained values in byte order. */
    method Values() returns (values: seq<Bytes>)
      requires Valid()
      ensures SortOf(Le, values, ValuesOf(items)) && |values| == |Kept()|
    {
      ByteOrder();
      values := Sort(Le, ValuesOf(items));
      SortSorts(Le, ValuesOf(items));
    }
  }

  function ValuesOf(s: seq<Candidate>): seq<Bytes> {
    seq(|s|, i requires 0 <= i < |s| => s[i].value)
  }

  lemma BestStep(limit: nat, state: seq<Candidate>, i: nat)
    requires i < |state|
    ensures Best(limit, state[..i + 1]) == Take(Insert(CandidateLe, Best(limit, state[..i]), state[i]), limit)
    ensures TotalSize(state[..i + 1]) == TotalSize(state[..i]) + state[i].Size()
  {
    TakeInsert(Sort(CandidateLe, state[..i]), state[i], limit);
    assert state[..i + 1] == state[..i] + [state[i]];
    SizeOfAppend(state[..i], state[i]);
  }

  lemma SortMember(s: seq<Candidate>, c: Candidate)
    requires c in Sort(CandidateLe, s)
    ensures c in s
  {
    SortMultiset(CandidateLe, s);
    assert c in multiset(Sort(CandidateLe, s));
  }

  lemma TakeDrops(s: seq<Candidate>, n: nat)
    requires n < |s|
    ensures TotalSize(Take(s, n)) + s[n].Size() <= TotalSize(s)
  {
    assert s == s[..n] + s[n..];
    SizeSplit(s[..n], s[n..]);
  }

  lemma TakeExact(limit: nat, size: nat, sorted: seq<Candidate>)
    requires size == TotalSize(sorted) && (limit < |sorted| ==> sorted[limit].Size() > 0)
    ensures size == TotalSize(Take(sorted, limit)) <==> |sorted| <= limit
  {
    if limit < |sorted| {
      TakeDrops(sorted, limit);
    }
  }

  /** NewSelection counts the bytes of rejected candidates too: its counter is
      exact if and only if the saved state fits the limit. (captureData only
      passes it an empty state.) */
  lemma NewSelectionExact(limit: nat, state: seq<Candidate>)
    requires forall c | c in state :: |c.rank| == RANK_SIZE
    ensures TotalSize(state) == TotalSize(Best(limit, state)) <==> |state| <= limit
  {
    var sorted := Sort(CandidateLe, state);
    SortSize(state);
    if limit < |state| {
      SortMember(state, sorted[limit]);
    }
    TakeExact(limit, TotalSize(state), sorted);
  }

  /** captureData, lines 308-314: an empty selection fed with the saved sample. */
  method RestoreSelection(rankOf: seq<Bytes> -> Bytes, limit: nat, ceiling: int, saved: seq<Candidate>)
    returns (selection: Selection, ok: bool)
    requires 0 < limit && RANK_SIZE <= ceiling
    ensures fresh(selection) && selection.Valid()
    ensures selection.rankOf == rankOf && selection.limit == limit && selection.ceiling == ceiling
    ensures (if ok then Some(selection.Kept()) else None) == Restore(limit, ceiling, saved)
  {
    selection := new Selection(rankOf, limit, ceiling, []);
    for i := 0 to |saved|
      invariant selection.Valid()
      invariant selection.rankOf == rankOf && selection.limit == limit && selection.ceiling == ceiling
      invariant Restore(limit, ceiling, saved[..i]) == Some(selection.Kept())
    {
      RestoreStep(limit, ceiling, saved, i);
      ok := selection.RestoreOwned(saved[i]);
      if !ok {
        RestoreStops(limit, ceiling, saved, i + 1);
        return;
      }
    }
    assert saved[..|saved|] == saved;
    ok := true;
  }

  lemma RestoreStep(limit: nat, ceiling: int, saved: seq<Candidate>, i: nat)
    requires i < |saved| && Restore(limit, ceiling, saved[..i]).Some?
    ensures Restore(limit, ceiling, saved[..i + 1]) ==
            RestoreOne(limit, ceiling, Restore(limit, ceiling, saved[..i]).value, saved[i])
  {
    assert saved[..i + 1][..i] == saved[..i];
  }

  lemma {:induction false} RestoreStops(limit: nat, ceiling: int, saved: seq<Candidate>, n: nat)
    requires n <= |saved| && Restore(limit, ceiling, saved[..n]).None?
    ensures Restore(limit, ceiling, saved).None?
    decreases |saved|
  {
    if n == |saved| {
      assert saved[..n] == saved;
    } else {
      assert saved[..|saved| - 1][..n] == saved[..n];
      RestoreStops(limit, ceiling, saved[..|saved| - 1], n);
    }
  }
}
