/** The semantic comparison of two projections (internal/inspect/compare.go). */
module Comparison {
  import opened ByteStrings
  import opened Identities
  import opened Prefixes
  import opened Projections
  import opened Sorting

  datatype Category = Structure | Dataset | GovernanceChange | Operations | Findings | Selection | Source | Target

  datatype Outcome = Added | Removed | Changed | Unchanged

  datatype Change = Change(resource: Identity, outcome: Outcome, categories: seq<Category>)

  datatype Counts = Counts(added: nat, removed: nat, changed: nat, kept: nat)

  datatype Receipt = Receipt(baseline: Bytes, current: Bytes, categories: seq<Category>, counts: Counts,
                             resources: seq<Change>)

  type Index = map<Bytes, ProjectedResource>

  /** The categories whose condition holds, in order. */
  function Select(conditions: seq<(bool, Category)>): seq<Category> {
    if conditions == [] then []
    else (if conditions[0].0 then [conditions[0].1] else []) + Select(conditions[1..])
  }

  lemma {:induction false} SelectNone(conditions: seq<(bool, Category)>)
    ensures Select(conditions) == [] <==> forall i | 0 <= i < |conditions| :: !conditions[i].0
  {
    if conditions != [] {
      SelectNone(conditions[1..]);
    }
  }

  function BundleConditions(before: Projection, after: Projection): seq<(bool, Category)> {
    [(before.governance != after.governance, GovernanceChange), (before.operations != after.operations, Operations),
     (before.findings != after.findings, Findings), (before.source != after.source, Source),
     (before.target != after.target, Target)]
  }

  /** changedBundleCategories. */
  function BundleCategories(before: Projection, after: Projection): seq<Category> {
    Select(BundleConditions(before, after))
  }

  function ResourceConditions(before: ProjectedResource, after: ProjectedResource, source: bool,
                              target: bool): seq<(bool, Category)> {
    [(before.structure != after.structure, Structure), (before.dataset != after.dataset, Dataset),
     (before.governance != after.governance, GovernanceChange), (before.operations != after.operations, Operations),
     (before.findings != after.findings, Findings), (before.selected != after.selected, Selection),
     (source, Source), (target, Target)]
  }

  /** changedCategories. */
  function ResourceCategories(before: ProjectedResource, after: ProjectedResource, source: bool,
                              target: bool): seq<Category> {
    Select(ResourceConditions(before, after, source, target))
  }

  /** No category exactly if nothing that is compared differs. */
  lemma NoCategories(before: ProjectedResource, after: ProjectedResource, source: bool, target: bool)
    requires before.identity == after.identity
    ensures ResourceCategories(before, after, source, target) == [] <==> before == after && !source && !target
  {
    var c := ResourceConditions(before, after, source, target);
    SelectNone(c);
    assert (forall i | 0 <= i < |c| :: !c[i].0) <==>
           !c[0].0 && !c[1].0 && !c[2].0 && !c[3].0 && !c[4].0 && !c[5].0 && !c[6].0 && !c[7].0;
  }

  lemma NoBundleCategories(before: Projection, after: Projection)
    ensures BundleCategories(before, after) == [] <==>
            before.governance == after.governance && before.operations == after.operations
                && before.findings == after.findings
            && before.source == after.source && before.target == after.target
  {
    var c := BundleConditions(before, after);
    SelectNone(c);
    assert (forall i | 0 <= i < |c| :: !c[i].0) <==> !c[0].0 && !c[1].0 && !c[2].0 && !c[3].0 && !c[4].0;
  }

  /** The resource that a key stands for: a later one replaces an earlier one. */
  ghost function IndexOf(resources: seq<ProjectedResource>): Index {
    if resources == [] then map[]
    else
      var last := resources[|resources| - 1];
      IndexOf(resources[..|resources| - 1])[Key(last.identity) := last]
  }

  method IndexResources(resources: seq<ProjectedResource>) returns (index: Index)
    ensures index == IndexOf(resources)
  {
    index := map[];
    for i := 0 to |resources|
      invariant index == IndexOf(resources[..i])
    {
      index := index[Key(resources[i].identity) := resources[i]];
      assert resources[..i + 1][..i] == resources[..i];
    }
    assert resources[..|resources|] == resources;
  }

  /** Every key of a resource is there, with the last resource that has it. */
  lemma {:induction false} IndexedLast(resources: seq<ProjectedResource>, k: Bytes)
    ensures k in IndexOf(resources) <==> exists i | 0 <= i < |resources| :: Key(resources[i].identity) == k
    ensures k in IndexOf(resources) ==> Key(IndexOf(resources)[k].identity) == k
    ensures forall i | 0 <= i < |resources| && Key(resources[i].identity) == k
                       && (forall j | i < j < |resources| :: Key(resources[j].identity) != k) ::
              IndexOf(resources)[k] == resources[i]
  {
    hide Key;
    if resources != [] {
      var front := resources[..|resources| - 1];
      IndexedLast(front, k);
      forall i | 0 <= i < |front| ensures front[i] == resources[i] {
      }
      if k in IndexOf(front) {
        var i :| 0 <= i < |front| && Key(front[i].identity) == k;
        assert Key(resources[i].identity) == k;
      }
    }
  }

  // ---------------------------------------------------------- the four outcomes

  function ChangeAt(base: Index, next: Index, source: bool, target: bool, k: Bytes): Change
    requires k in base || k in next
  {
    if k !in base then Change(next[k].identity, Added, [])
    else if k !in next then Change(base[k].identity, Removed, [])
    else
      var categories := ResourceCategories(base[k], next[k], source, target);
      Change(next[k].identity, if categories == [] then Unchanged else Changed, categories)
  }

  /** One change for every key, in order. */
  ghost predicate ChangesInOrder(changes: seq<Change>, base: Index, next: Index, source: bool, target: bool,
                                 ordered: seq<Bytes>) {
    && |changes| == |ordered|
    && forall i | 0 <= i < |ordered| :: IsChangeAt(changes[i], base, next, source, target, ordered[i])
  }

  ghost predicate IsChangeAt(c: Change, base: Index, next: Index, source: bool, target: bool, k: Bytes) {
    (k in base || k in next) && c == ChangeAt(base, next, source, target, k)
  }

  /** How many changes have this outcome. */
  function Tally(changes: seq<Change>, o: Outcome): nat {
    if changes == [] then 0 else (if changes[0].outcome == o then 1 else 0) + Tally(changes[1..], o)
  }

  function CountsOf(changes: seq<Change>): Counts {
    Counts(Tally(changes, Added), Tally(changes, Removed), Tally(changes, Changed), Tally(changes, Unchanged))
  }

  lemma {:induction false} TallySplit(a: seq<Change>, b: seq<Change>, o: Outcome)
    ensures Tally(a + b, o) == Tally(a, o) + Tally(b, o)
  {
    if a == [] {
      assert a + b == b;
    } else {
      assert (a + b)[1..] == a[1..] + b;
      TallySplit(a[1..], b, o);
    }
  }

  lemma {:induction false} TallyTotal(changes: seq<Change>)
    ensures var c := CountsOf(changes); c.added + c.removed + c.changed + c.kept == |changes|
  {
    if changes != [] {
      TallyTotal(changes[1..]);
    }
  }

  function Mirror(o: Outcome): Outcome {
    match o
    case Added => Removed
    case Removed => Added
    case _ => o
  }

  lemma {:induction false} TallyMirror(a: seq<Change>, b: seq<Change>)
    requires |a| == |b| && forall i | 0 <= i < |a| :: b[i].outcome == Mirror(a[i].outcome)
    ensures CountsOf(b) == Counts(Tally(a, Removed), Tally(a, Added), Tally(a, Changed), Tally(a, Unchanged))
  {
    if a != [] {
      TallyMirror(a[1..], b[1..]);
    }
  }

  lemma MirroredChange(base: Index, next: Index, source: bool, target: bool, k: Bytes)
    requires k in base || k in next
    ensures ChangeAt(next, base, source, target, k).outcome == Mirror(ChangeAt(base, next, source, target, k).outcome)
  {
    if k in base && k in next {
      assert ResourceConditions(base[k], next[k], source, target)
             == ResourceConditions(next[k], base[k], source, target);
    }
  }

  // ----------------------------------------------------------------- Compare

  /** Ranging over a map: every key once, in any order. */
  ghost predicate Lists(keys: set<Bytes> -> seq<Bytes>) {
    forall s :: |keys(s)| == |s| && forall k :: k in keys(s) <==> k in s
  }

  ghost predicate Ordered(ordered: seq<Bytes>, s: set<Bytes>) {
    Ascending(ordered) && |ordered| == |s| && forall k :: k in ordered <==> k in s
  }

  method OrderKeys(s: set<Bytes>, keys: set<Bytes> -> seq<Bytes>) returns (ordered: seq<Bytes>)
    requires Lists(keys)
    ensures Ordered(ordered, s)
  {
    ByteOrder();
    ordered := Sort(Le, keys(s));
    SortSorts(Le, keys(s));
    assert |ordered| == |multiset(ordered)| == |s|;
    forall k ensures k in ordered <==> k in s {
      assert k in multiset(ordered) <==> k in multiset(keys(s));
    }
    NoRepetition(ordered, s);
  }

  lemma NoRepetition(ordered: seq<Bytes>, s: set<Bytes>)
    requires |ordered| == |s| && forall k | k in s :: k in ordered
    ensures Distinct(ordered)
  {
    if !Distinct(ordered) {
      var i, j :| 0 <= i < j < |ordered| && ordered[i] == ordered[j];
      var rest := Without(ordered, j);
      forall k | k in s ensures k in rest {
        var n :| 0 <= n < |ordered| && ordered[n] == k;
        assert rest[if n < j then n else if n == j then i else n - 1] == k;
      }
      AtMost(rest, s);
    }
  }

  lemma {:induction false} AtMost(all: seq<Bytes>, s: set<Bytes>)
    requires forall k | k in s :: k in all
    ensures |s| <= |all|
  {
    if all == [] {
      assert s == {};
    } else {
      var front, last := all[..|all| - 1], all[|all| - 1];
      forall k | k in s - {last} ensures k in front {
        var n :| 0 <= n < |all| && all[n] == k;
        assert front[n] == k;
      }
      AtMost(front, s - {last});
    }
  }

  method CompareOne(base: Index, next: Index, source: bool, target: bool, k: Bytes, counts: Counts)
    returns (more: Counts, change: Change)
    requires k in base || k in next
    ensures change == ChangeAt(base, next, source, target, k)
    ensures more == Counts(counts.added + Tally([change], Added), counts.removed + Tally([change], Removed),
                           counts.changed + Tally([change], Changed), counts.kept + Tally([change], Unchanged))
  {
    hide ResourceCategories;
    if k !in base {
      change := Change(next[k].identity, Added, []);
      more := counts.(added := counts.added + 1);
    } else if k !in next {
      change := Change(base[k].identity, Removed, []);
      more := counts.(removed := counts.removed + 1);
    } else {
      var categories := ResourceCategories(base[k], next[k], source, target);
      if categories == [] {
        change := Change(next[k].identity, Unchanged, categories);
        more := counts.(kept := counts.kept + 1);
      } else {
        change := Change(next[k].identity, Changed, categories);
        more := counts.(changed := counts.changed + 1);
      }
    }
    assert [change][1..] == [];
  }

  lemma CountOne(changes: seq<Change>, change: Change, counts: Counts, more: Counts)
    requires counts == CountsOf(changes)
    requires more == Counts(counts.added + Tally([change], Added), counts.removed + Tally([change], Removed),
                            counts.changed + Tally([change], Changed), counts.kept + Tally([change], Unchanged))
    ensures more == CountsOf(changes + [change])
  {
    TallySplit(changes, [change], Added);
    TallySplit(changes, [change], Removed);
    TallySplit(changes, [change], Changed);
    TallySplit(changes, [change], Unchanged);
  }

  /** The loop of Compare. */
  method CompareKeys(base: Index, next: Index, source: bool, target: bool, ordered: seq<Bytes>)
    returns (counts: Counts, changes: seq<Change>)
    requires forall k | k in ordered :: k in base || k in next
    ensures counts == CountsOf(changes) && ChangesInOrder(changes, base, next, source, target, ordered)
  {
    counts, changes := Counts(0, 0, 0, 0), [];
    for i := 0 to |ordered|
      invariant counts == CountsOf(changes) && |changes| == i
      invariant forall n | 0 <= n < i :: IsChangeAt(changes[n], base, next, source, target, ordered[n])
    {
      hide CountsOf, Tally, ChangeAt;
      assert ordered[i] in ordered;
      var more, change := CompareOne(base, next, source, target, ordered[i], counts);
      CountOne(changes, change, counts, more);
      counts, changes := more, changes + [change];
    }
  }

  /** Compare: one change for every key of the union, in order, and exact counts. */
  method Compare(baseline: Projection, current: Projection, keys: set<Bytes> -> seq<Bytes>) returns (receipt: Receipt)
    requires Lists(keys)
    ensures IsReceipt(receipt, baseline, current)
  {
    hide Ascending, CountsOf, ChangesInOrder, BundleCategories, IndexOf;
    var base := IndexResources(baseline.resources);
    var next := IndexResources(current.resources);
    var ordered := OrderKeys(base.Keys + next.Keys, keys);
    var counts, changes := CompareKeys(base, next, baseline.source != current.source, baseline.target != current.target,
                                       ordered);
    receipt := Receipt(baseline.digest, current.digest, BundleCategories(baseline, current), counts, changes);
    assert Lines(receipt, baseline, current, ordered);
  }

  /** The identities of both sides. */
  ghost function Union(baseline: Projection, current: Projection): set<Bytes> {
    IndexOf(baseline.resources).Keys + IndexOf(current.resources).Keys
  }

  ghost predicate Lines(receipt: Receipt, baseline: Projection, current: Projection, ordered: seq<Bytes>) {
    && Ordered(ordered, Union(baseline, current))
    && ChangesInOrder(receipt.resources, IndexOf(baseline.resources), IndexOf(current.resources),
                      baseline.source != current.source, baseline.target != current.target, ordered)
  }

  ghost predicate IsReceipt(receipt: Receipt, baseline: Projection, current: Projection) {
    && receipt.baseline == baseline.digest && receipt.current == current.digest
    && receipt.categories == BundleCategories(baseline, current)
    && receipt.counts == CountsOf(receipt.resources)
    && exists ordered :: Lines(receipt, baseline, current, ordered)
  }

  /** There is one receipt. */
  lemma OneReceipt(baseline: Projection, current: Projection, a: Receipt, b: Receipt)
    requires IsReceipt(a, baseline, current) && IsReceipt(b, baseline, current)
    ensures a == b
  {
    hide CountsOf, ChangeAt, BundleCategories, IndexOf, Ascending;
    var s :| Lines(a, baseline, current, s);
    var t :| Lines(b, baseline, current, t);
    AscendingUnique(s, t);
    SameChanges(a.resources, b.resources, IndexOf(baseline.resources), IndexOf(current.resources),
                baseline.source != current.source, baseline.target != current.target, s);
  }

  lemma SameChanges(a: seq<Change>, b: seq<Change>, base: Index, next: Index, source: bool, target: bool,
                    ordered: seq<Bytes>)
    requires ChangesInOrder(a, base, next, source, target, ordered)
             && ChangesInOrder(b, base, next, source, target, ordered)
    ensures a == b
  {
    hide ChangeAt;
    forall i | 0 <= i < |ordered| ensures a[i] == b[i] {
      assert IsChangeAt(a[i], base, next, source, target, ordered[i])
             && IsChangeAt(b[i], base, next, source, target, ordered[i]);
    }
  }

  /** The four counts add up to the size of the union of the identities. */
  lemma CountsPartition(receipt: Receipt, baseline: Projection, current: Projection)
    requires IsReceipt(receipt, baseline, current)
    ensures var c := receipt.counts; c.added + c.removed + c.changed + c.kept == |Union(baseline, current)|
  {
    TallyTotal(receipt.resources);
  }

  /** Swapping the sides swaps added and removed, and keeps the rest. */
  lemma CountsSwap(receipt: Receipt, swapped: Receipt, baseline: Projection, current: Projection)
    requires IsReceipt(receipt, baseline, current) && IsReceipt(swapped, current, baseline)
    ensures var c := receipt.counts; swapped.counts == Counts(c.removed, c.added, c.changed, c.kept)
  {
    hide CountsOf, ChangeAt, BundleCategories, IndexOf, Ascending;
    var base, next := IndexOf(baseline.resources), IndexOf(current.resources);
    var ordered :| Lines(receipt, baseline, current, ordered);
    var other :| Lines(swapped, current, baseline, other);
    assert Union(baseline, current) == Union(current, baseline);
    AscendingUnique(ordered, other);
    var a, b := receipt.resources, swapped.resources;
    forall i | 0 <= i < |a| ensures b[i].outcome == Mirror(a[i].outcome) {
      assert IsChangeAt(a[i], base, next, baseline.source != current.source, baseline.target != current.target,
                        ordered[i]);
      assert IsChangeAt(b[i], next, base, current.source != baseline.source, current.target != baseline.target,
                        ordered[i]);
      MirroredChange(base, next, baseline.source != current.source, baseline.target != current.target, ordered[i]);
    }
    TallyMirror(a, b);
    CountsAre(a);
  }

  lemma CountsAre(a: seq<Change>)
    ensures CountsOf(a) == Counts(Tally(a, Added), Tally(a, Removed), Tally(a, Changed), Tally(a, Unchanged))
  {
  }

  /** A resource is unchanged in the receipt exactly if it is the same on both
      sides and neither source nor target differ. */
  lemma UnchangedMeansSame(base: Index, next: Index, source: bool, target: bool, k: Bytes)
    requires k in base && k in next && base[k].identity == next[k].identity
    ensures ChangeAt(base, next, source, target, k).outcome == Unchanged <==> base[k] == next[k] && !source && !target
  {
    NoCategories(base[k], next[k], source, target);
  }

  /** Comparing a projection with itself reports every resource unchanged. */
  lemma SelfComparison(receipt: Receipt, p: Projection)
    requires IsReceipt(receipt, p, p)
    ensures receipt.categories == [] && receipt.counts == Counts(0, 0, 0, |IndexOf(p.resources)|)
    ensures forall i | 0 <= i < |receipt.resources| :: receipt.resources[i].outcome == Unchanged
  {
    hide CountsOf, ChangesInOrder, IndexOf, Ascending, BundleCategories;
    NoBundleCategories(p, p);
    var index := IndexOf(p.resources);
    var ordered :| Lines(receipt, p, p, ordered);
    SelfChanges(receipt.resources, index, ordered);
    AllUnchanged(receipt.resources);
    assert Union(p, p) == index.Keys;
  }

  lemma SelfChanges(changes: seq<Change>, index: Index, ordered: seq<Bytes>)
    requires ChangesInOrder(changes, index, index, false, false, ordered)
    ensures |changes| == |ordered|
    ensures forall i | 0 <= i < |changes| :: changes[i].outcome == Unchanged
  {
    hide ChangeAt;
    forall i | 0 <= i < |changes| ensures changes[i].outcome == Unchanged {
      assert IsChangeAt(changes[i], index, index, false, false, ordered[i]);
      UnchangedMeansSame(index, index, false, false, ordered[i]);
    }
  }

  lemma {:induction false} AllUnchanged(changes: seq<Change>)
    requires forall i | 0 <= i < |changes| :: changes[i].outcome == Unchanged
    ensures CountsOf(changes) == Counts(0, 0, 0, |changes|)
  {
    if changes != [] {
      AllUnchanged(changes[1..]);
    }
  }

  // ----------------------------------------------------- what a receipt says

  lemma {:induction false} Selected(conditions: seq<(bool, Category)>, c: Category)
    ensures c in Select(conditions) <==> exists i | 0 <= i < |conditions| :: conditions[i] == (true, c)
  {
    if conditions != [] {
      Selected(conditions[1..], c);
      if c in Select(conditions) {
        if !(conditions[0] == (true, c)) {
          var i :| 0 <= i < |conditions[1..]| && conditions[1..][i] == (true, c);
          assert conditions[i + 1] == (true, c);
        }
      }
    }
  }

  /** Some resource has this key. */
  ghost predicate Known(resources: seq<ProjectedResource>, k: Bytes) {
    exists i | 0 <= i < |resources| :: Key(resources[i].identity) == k
  }

  /** The last resource with this key. */
  ghost predicate IsLast(resources: seq<ProjectedResource>, r: ProjectedResource) {
    exists i | 0 <= i < |resources| && resources[i] == r ::
      forall j | i < j < |resources| :: Key(resources[j].identity) != Key(r.identity)
  }

  lemma LastIndexed(resources: seq<ProjectedResource>, r: ProjectedResource)
    requires IsLast(resources, r)
    ensures Key(r.identity) in IndexOf(resources) && IndexOf(resources)[Key(r.identity)] == r
  {
    hide Key, IndexOf;
    IndexedLast(resources, Key(r.identity));
  }

  /** The categories of a change name exactly the components that differ. */
  ghost predicate NamesDifferences(c: seq<Category>, before: ProjectedResource, after: ProjectedResource,
                                   source: bool, target: bool) {
    && (Structure in c <==> before.structure != after.structure)
    && (Dataset in c <==> before.dataset != after.dataset)
    && (GovernanceChange in c <==> before.governance != after.governance)
    && (Operations in c <==> before.operations != after.operations)
    && (Findings in c <==> before.findings != after.findings)
    && (Selection in c <==> before.selected != after.selected)
    && (Source in c <==> source) && (Target in c <==> target)
  }

  lemma CategoriesName(before: ProjectedResource, after: ProjectedResource, source: bool, target: bool)
    ensures NamesDifferences(ResourceCategories(before, after, source, target), before, after, source, target)
  {
    var conditions := ResourceConditions(before, after, source, target);
    assert Asked(conditions, Structure, 0) && Asked(conditions, Dataset, 1) && Asked(conditions, GovernanceChange, 2);
    assert Asked(conditions, Operations, 3) && Asked(conditions, Findings, 4) && Asked(conditions, Selection, 5);
    assert Asked(conditions, Source, 6) && Asked(conditions, Target, 7);
    hide ResourceConditions, Select, Asked;
    AskedAt(conditions, Structure, 0);
    AskedAt(conditions, Dataset, 1);
    AskedAt(conditions, GovernanceChange, 2);
    AskedAt(conditions, Operations, 3);
    AskedAt(conditions, Findings, 4);
    AskedAt(conditions, Selection, 5);
    AskedAt(conditions, Source, 6);
    AskedAt(conditions, Target, 7);
  }

  /** Condition number i is the only one for this category. */
  ghost predicate Asked(conditions: seq<(bool, Category)>, c: Category, i: nat) {
    i < |conditions| && forall j | 0 <= j < |conditions| :: conditions[j].1 == c <==> j == i
  }

  lemma AskedAt(conditions: seq<(bool, Category)>, c: Category, i: nat)
    requires Asked(conditions, c, i)
    ensures c in Select(conditions) <==> conditions[i].0
  {
    hide Select;
    Selected(conditions, c);
    assert conditions[i] == (conditions[i].0, c);
  }

  /** One line of a receipt: the resource is on one side only, and then it says on which;
      or it is on both, and then it names what differs. */
  ghost predicate SaysRight(c: Change, baseline: Projection, current: Projection) {
    var k := Key(c.resource);
    var here, there := Known(baseline.resources, k), Known(current.resources, k);
    && (here || there) && (c.outcome == Added <==> !here) && (c.outcome == Removed <==> !there)
    && (!here || !there ==> c.categories == [])
    && forall before, after | IsLast(baseline.resources, before) && IsLast(current.resources, after)
                              && Key(before.identity) == k && Key(after.identity) == k ::
         && c.resource == after.identity
         && NamesDifferences(c.categories, before, after, baseline.source != current.source,
                             baseline.target != current.target)
         && (c.outcome == Unchanged <==> c.categories == []) && (c.outcome == Changed <==> c.categories != [])
  }

  lemma LineSaysRight(c: Change, baseline: Projection, current: Projection, k: Bytes)
    requires IsChangeAt(c, IndexOf(baseline.resources), IndexOf(current.resources),
                        baseline.source != current.source, baseline.target != current.target, k)
    ensures Key(c.resource) == k && SaysRight(c, baseline, current)
  {
    hide Key, IndexOf, ResourceCategories, NamesDifferences;
    var base, next := IndexOf(baseline.resources), IndexOf(current.resources);
    IndexedLast(baseline.resources, k);
    IndexedLast(current.resources, k);
    forall before, after | IsLast(baseline.resources, before) && IsLast(current.resources, after)
                           && Key(before.identity) == k && Key(after.identity) == k
      ensures before == base[k] && after == next[k]
    {
      LastIndexed(baseline.resources, before);
      LastIndexed(current.resources, after);
    }
    if k in base && k in next {
      CategoriesName(base[k], next[k], baseline.source != current.source, baseline.target != current.target);
    }
  }

  /** A receipt has one line for every resource of either side, and each line is right. */
  lemma ReceiptSaysRight(receipt: Receipt, baseline: Projection, current: Projection)
    requires IsReceipt(receipt, baseline, current)
    ensures receipt.baseline == baseline.digest && receipt.current == current.digest
    ensures forall i | 0 <= i < |receipt.resources| :: SaysRight(receipt.resources[i], baseline, current)
    ensures forall k | Known(baseline.resources, k) || Known(current.resources, k) ::
              exists i | 0 <= i < |receipt.resources| :: Key(receipt.resources[i].resource) == k
    ensures forall i, j | 0 <= i < j < |receipt.resources| ::
              Key(receipt.resources[i].resource) != Key(receipt.resources[j].resource)
              && Le(Key(receipt.resources[i].resource), Key(receipt.resources[j].resource))
  {
    hide Key, IndexOf, CountsOf, SaysRight, BundleCategories, Known, ChangeAt;
    var ordered :| Lines(receipt, baseline, current, ordered);
    var lines := receipt.resources;
    forall i | 0 <= i < |lines|
      ensures SaysRight(lines[i], baseline, current) && Key(lines[i].resource) == ordered[i]
    {
      assert IsChangeAt(lines[i], IndexOf(baseline.resources), IndexOf(current.resources),
                        baseline.source != current.source, baseline.target != current.target, ordered[i]);
      LineSaysRight(lines[i], baseline, current, ordered[i]);
    }
    forall k | Known(baseline.resources, k) || Known(current.resources, k)
      ensures exists i | 0 <= i < |lines| :: Key(lines[i].resource) == k
    {
      KnownIsIndexed(baseline.resources, k);
      KnownIsIndexed(current.resources, k);
      assert k in ordered;
      var i :| 0 <= i < |ordered| && ordered[i] == k;
      assert Key(lines[i].resource) == k;
    }
  }

  lemma KnownIsIndexed(resources: seq<ProjectedResource>, k: Bytes)
    ensures Known(resources, k) <==> k in IndexOf(resources)
  {
    hide Key, IndexOf;
    IndexedLast(resources, k);
  }

  /** The categories of the whole receipt name exactly the parts of the bundles that differ. */
  lemma BundleNames(before: Projection, after: Projection)
    ensures var c := BundleCategories(before, after);
            && (GovernanceChange in c <==> before.governance != after.governance)
            && (Operations in c <==> before.operations != after.operations)
            && (Findings in c <==> before.findings != after.findings)
            && (Source in c <==> before.source != after.source) && (Target in c <==> before.target != after.target)
            && Structure !in c && Dataset !in c && Selection !in c
  {
    var conditions := BundleConditions(before, after);
    assert Asked(conditions, GovernanceChange, 0) && Asked(conditions, Operations, 1) && Asked(conditions, Findings, 2);
    assert Asked(conditions, Source, 3) && Asked(conditions, Target, 4);
    assert forall i | 0 <= i < |conditions| :: conditions[i].1 != Structure && conditions[i].1 != Dataset
                                               && conditions[i].1 != Selection;
    hide BundleConditions, Select, Asked;
    AskedAt(conditions, GovernanceChange, 0);
    AskedAt(conditions, Operations, 1);
    AskedAt(conditions, Findings, 2);
    AskedAt(conditions, Source, 3);
    AskedAt(conditions, Target, 4);
    Selected(conditions, Structure);
    Selected(conditions, Dataset);
    Selected(conditions, Selection);
  }

  // -------------------------------------------------------- the four counts

  /** The keys among these that have the outcome. */
  ghost function With(changes: seq<Change>, ordered: seq<Bytes>, o: Outcome): (r: set<Bytes>)
    requires |changes| == |ordered|
    ensures forall k :: k in r <==> exists i | 0 <= i < |ordered| :: ordered[i] == k && changes[i].outcome == o
  {
    set i | 0 <= i < |ordered| && changes[i].outcome == o :: ordered[i]
  }

  lemma WithOneMore(changes: seq<Change>, ordered: seq<Bytes>, c: Change, k: Bytes, o: Outcome)
    requires |changes| == |ordered|
    ensures With(changes + [c], ordered + [k], o)
            == With(changes, ordered, o) + if c.outcome == o then {k} else {}
  {
    var more, all := changes + [c], ordered + [k];
    forall x | x in With(changes, ordered, o) ensures x in With(more, all, o) {
      var i :| 0 <= i < |ordered| && ordered[i] == x && changes[i].outcome == o;
      assert all[i] == x && more[i].outcome == o;
    }
    if c.outcome == o {
      assert all[|ordered|] == k && more[|ordered|].outcome == o;
    }
  }

  lemma {:induction false} TallyIsSize(changes: seq<Change>, ordered: seq<Bytes>, o: Outcome)
    requires |changes| == |ordered| && Distinct(ordered)
    ensures Tally(changes, o) == |With(changes, ordered, o)|
    decreases |changes|
  {
    if changes != [] {
      var n := |changes| - 1;
      var c, k := changes[n], ordered[n];
      assert changes == changes[..n] + [c] && ordered == ordered[..n] + [k];
      TallySplit(changes[..n], [c], o);
      TallyIsSize(changes[..n], ordered[..n], o);
      WithOneMore(changes[..n], ordered[..n], c, k, o);
      assert k !in ordered[..n];
      assert [c][1..] == [];
    }
  }

  /** Added are the keys of the current side only, removed those of the baseline only. */
  lemma CountsOfSides(receipt: Receipt, baseline: Projection, current: Projection)
    requires IsReceipt(receipt, baseline, current)
    ensures var here, there := IndexOf(baseline.resources).Keys, IndexOf(current.resources).Keys;
            && receipt.counts.added == |there - here| && receipt.counts.removed == |here - there|
            && receipt.counts.changed + receipt.counts.kept == |here * there|
  {
    hide IndexOf, BundleCategories, ChangesInOrder, Key, Tally, With;
    var base, next := IndexOf(baseline.resources), IndexOf(current.resources);
    var ordered :| Lines(receipt, baseline, current, ordered);
    var lines := receipt.resources;
    SidesApart(lines, base, next, baseline.source != current.source, baseline.target != current.target, ordered);
    TallyIsSize(lines, ordered, Added);
    TallyIsSize(lines, ordered, Removed);
    CountsPartition(receipt, baseline, current);
    ThreeParts(base.Keys, next.Keys);
  }

  lemma ThreeParts(a: set<Bytes>, b: set<Bytes>)
    ensures |a + b| == |b - a| + |a - b| + |a * b|
  {
    assert a + b == (b - a) + (a - b) + a * b;
  }

  lemma SidesApart(lines: seq<Change>, base: Index, next: Index, source: bool, target: bool, ordered: seq<Bytes>)
    requires ChangesInOrder(lines, base, next, source, target, ordered)
    requires forall k :: k in ordered <==> k in base.Keys + next.Keys
    ensures |lines| == |ordered| && With(lines, ordered, Added) == next.Keys - base.Keys
    ensures With(lines, ordered, Removed) == base.Keys - next.Keys
  {
    hide ResourceCategories;
    forall i | 0 <= i < |ordered|
      ensures (lines[i].outcome == Added <==> ordered[i] !in base) && (ordered[i] in base || ordered[i] in next)
      ensures lines[i].outcome == Removed <==> ordered[i] !in next
    {
      assert IsChangeAt(lines[i], base, next, source, target, ordered[i]);
    }
    forall k | k in base.Keys + next.Keys
      ensures k in With(lines, ordered, Added) <==> k !in base
      ensures k in With(lines, ordered, Removed) <==> k !in next
    {
      var i :| 0 <= i < |ordered| && ordered[i] == k;
    }
    forall i | 0 <= i < |ordered| ensures ordered[i] in base.Keys + next.Keys {
      assert ordered[i] in ordered;
    }
  }
}
