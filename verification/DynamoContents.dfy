/** What a DynamoDB capture has taken from the table: the pages it has scanned, the
    items it has captured and what it has written for them. */
module DynamoContents {
  import opened ByteStrings
  import opened Sorting
  import opened Lines
  import opened Sequences
  import opened AttributeCodec
  import opened Cohort
  import opened ExternalMerge
  import opened Manifest
  import opened Packing
  import opened DynamoChunks
  import opened ProtectedState
  import opened GovernedState
  import opened DynamoCapture
  import opened Wrappers

  // ------------------------------------------------------------- one item

  /** The item after governing, and the rules that have fired. */
  function Governed(cfg: Config, item: Item): Option<(Item, seq<RuleId>)> {
    if cfg.options.governed then cfg.source.govern(item) else Some((item, []))
  }

  /** The row of an item: the canonical text of the governed item. */
  function RowOf(cfg: Config, item: Item): Option<Bytes> {
    var g := Governed(cfg, item);
    if g.None? then None else CanonicalText(cfg.documents, g.value.0)
  }

  /** Without a cohort every item is captured, otherwise the eligible ones. */
  predicate Belongs(cfg: Config, item: Item) {
    cfg.options.cohort.Some? ==> cfg.source.eligible(item).Some? && cfg.source.eligible(item).value.Some?
  }

  /** Nothing fails on this item. */
  predicate Takeable(cfg: Config, item: Item) {
    && (cfg.options.cohort.Some? ==> cfg.source.eligible(item).Some?)
    && (Belongs(cfg, item) ==> RowOf(cfg, item).Some?)
  }

  predicate AllTakeable(cfg: Config, items: seq<Item>) {
    forall i | 0 <= i < |items| :: Takeable(cfg, items[i])
  }

  function Row(cfg: Config, item: Item): Bytes {
    if RowOf(cfg, item).Some? then RowOf(cfg, item).value else []
  }

  function Fired(cfg: Config, item: Item): seq<RuleId> {
    if Governed(cfg, item).Some? then Governed(cfg, item).value.1 else []
  }

  function CandidateOf(cfg: Config, item: Item): Candidate
    requires cfg.options.cohort.Some? && Belongs(cfg, item)
  {
    Candidate(cfg.source.rankOf(cfg.source.eligible(item).value.value), Row(cfg, item))
  }

  // ------------------------------------------------------------ many items

  function Members(cfg: Config, items: seq<Item>): (r: seq<Item>)
    ensures forall m | m in r :: Belongs(cfg, m)
  {
    if items == [] then []
    else (if Belongs(cfg, items[0]) then [items[0]] else []) + Members(cfg, items[1..])
  }

  function Rows(cfg: Config, items: seq<Item>): (r: seq<Bytes>)
    ensures |r| == |items| && forall i | 0 <= i < |items| :: r[i] == Row(cfg, items[i])
  {
    seq(|items|, i requires 0 <= i < |items| => Row(cfg, items[i]))
  }

  function Candidates(cfg: Config, items: seq<Item>): (r: seq<Candidate>)
    requires cfg.options.cohort.Some? && forall m | m in items :: Belongs(cfg, m)
    ensures |r| == |items| && forall i | 0 <= i < |items| :: r[i] == CandidateOf(cfg, items[i])
  {
    seq(|items|, i requires 0 <= i < |items| => CandidateOf(cfg, items[i]))
  }

  /** How often a rule has fired on these items. */
  function TimesFired(cfg: Config, items: seq<Item>, id: RuleId): nat {
    if items == [] then 0 else multiset(Fired(cfg, items[0]))[id] + TimesFired(cfg, items[1..], id)
  }

  function CountFor(counts: map<RuleId, int>, id: RuleId): int {
    if id in counts then counts[id] else 0
  }

  lemma {:induction false} MembersSplit(cfg: Config, a: seq<Item>, b: seq<Item>)
    ensures Members(cfg, a + b) == Members(cfg, a) + Members(cfg, b)
  {
    if a == [] {
      assert a + b == b;
    } else {
      assert (a + b)[1..] == a[1..] + b;
      MembersSplit(cfg, a[1..], b);
    }
  }

  lemma {:induction false} FiredSplit(cfg: Config, a: seq<Item>, b: seq<Item>, id: RuleId)
    ensures TimesFired(cfg, a + b, id) == TimesFired(cfg, a, id) + TimesFired(cfg, b, id)
  {
    if a == [] {
      assert a + b == b;
    } else {
      assert (a + b)[1..] == a[1..] + b;
      FiredSplit(cfg, a[1..], b, id);
    }
  }

  lemma {:induction false} AllMembers(cfg: Config, items: seq<Item>)
    requires cfg.options.cohort.None?
    ensures Members(cfg, items) == items
  {
    if items != [] {
      AllMembers(cfg, items[1..]);
    }
  }

  // -------------------------------------------------------------- one page

  /** What the items m of a page add to what the page began with. */
  ghost predicate Adds(cfg: Config, before: Work, m: seq<Item>, after: Work)
    requires forall i | i in m :: Belongs(cfg, i)
  {
    && after.items == before.items + |m|
    && after.sourceBytes == before.sourceBytes + |Text(Rows(cfg, m))|
    && (forall id :: CountFor(after.counts, id) == CountFor(before.counts, id) + TimesFired(cfg, m, id))
    && if cfg.options.cohort.None? then after.rows == before.rows + Rows(cfg, m) && after.kept == before.kept
       else after.rows == before.rows && Offered(cfg, before.kept, m) == Some(after.kept)
  }

  /** The sample after these members have been offered, unless one does not fit. */
  function Offered(cfg: Config, kept: seq<Candidate>, m: seq<Item>): Option<seq<Candidate>>
    requires cfg.options.cohort.Some? && forall i | i in m :: Belongs(cfg, i)
  {
    Run(cfg.options.cohort.value.limit, cfg.options.cohort.value.ceiling, kept, Candidates(cfg, m))
  }

  lemma {:induction false} BumpAdds(counts: map<RuleId, int>, fired: seq<RuleId>, id: RuleId)
    ensures CountFor(Bump(counts, fired), id) == CountFor(counts, id) + multiset(fired)[id]
    decreases |fired|
  {
    if fired != [] {
      BumpAdds(counts[fired[0] := 1 + if fired[0] in counts then counts[fired[0]] else 0], fired[1..], id);
      assert fired == [fired[0]] + fired[1..];
    }
  }

  lemma TextSplit(cfg: Config, a: seq<Item>, b: seq<Item>)
    ensures Rows(cfg, a + b) == Rows(cfg, a) + Rows(cfg, b)
    ensures |Text(Rows(cfg, a + b))| == |Text(Rows(cfg, a))| + |Text(Rows(cfg, b))|
  {
    TextAppend(Rows(cfg, a), Rows(cfg, b));
  }

  /** First the members a, then the members b. */
  lemma AddsBoth(cfg: Config, x: Work, a: seq<Item>, y: Work, b: seq<Item>, z: Work)
    requires forall i | i in a + b :: Belongs(cfg, i)
    requires (forall i | i in a :: Belongs(cfg, i)) && (forall i | i in b :: Belongs(cfg, i))
    requires Adds(cfg, x, a, y) && Adds(cfg, y, b, z)
    ensures Adds(cfg, x, a + b, z)
  {
    hide Text, TimesFired, Run;
    TextSplit(cfg, a, b);
    forall id ensures CountFor(z.counts, id) == CountFor(x.counts, id) + TimesFired(cfg, a + b, id) {
      FiredSplit(cfg, a, b, id);
    }
    if cfg.options.cohort.Some? {
      OfferedSplit(cfg, x.kept, a, b);
    }
  }

  lemma OfferedSplit(cfg: Config, kept: seq<Candidate>, a: seq<Item>, b: seq<Item>)
    requires cfg.options.cohort.Some? && forall i | i in a + b :: Belongs(cfg, i)
    requires (forall i | i in a :: Belongs(cfg, i)) && (forall i | i in b :: Belongs(cfg, i))
    ensures Offered(cfg, kept, a + b) ==
            if Offered(cfg, kept, a).None? then None else Offered(cfg, Offered(cfg, kept, a).value, b)
  {
    hide Run;
    assert Candidates(cfg, a + b) == Candidates(cfg, a) + Candidates(cfg, b);
    RunFrom(cfg.options.cohort.value.limit, cfg.options.cohort.value.ceiling, kept, Candidates(cfg, a),
            Candidates(cfg, b));
  }

  lemma OfferedOne(cfg: Config, kept: seq<Candidate>, item: Item)
    requires cfg.options.cohort.Some? && Belongs(cfg, item)
    ensures Offered(cfg, kept, [item]) ==
            Offer(cfg.options.cohort.value.limit, cfg.options.cohort.value.ceiling, kept, CandidateOf(cfg, item))
  {
    hide Offer;
    var c := CandidateOf(cfg, item);
    var limit, ceiling := cfg.options.cohort.value.limit, cfg.options.cohort.value.ceiling;
    assert Candidates(cfg, [item]) == [] + [c];
    RunSnoc(limit, ceiling, kept, [], c);
    assert Run(limit, ceiling, kept, []) == Some(kept);
  }

  lemma OneMember(cfg: Config, item: Item)
    ensures Members(cfg, [item]) == if Belongs(cfg, item) then [item] else []
  {
    assert [item][1..] == [];
  }

  /** One item: what makes it fail, and what it adds. */
  lemma TakesOne(cfg: Config, w: Work, item: Item)
    ensures var m := Members(cfg, [item]);
            var taken := TakeIfEligible(cfg, w, item);
            && (taken.Some? <==>
                  Takeable(cfg, item) && (cfg.options.cohort.Some? ==> Offered(cfg, w.kept, m).Some?))
            && (taken.Some? ==> Adds(cfg, w, m, taken.value) && taken.value.scanned == w.scanned
                                && taken.value.truncated == w.truncated)
  {
    hide Offer, CanonicalText;
    OneMember(cfg, item);
    if Belongs(cfg, item) && RowOf(cfg, item).Some? {
      var row := Row(cfg, item);
      assert Rows(cfg, [item]) == [row];
      TextOne(row);
      assert [item][1..] == [];
      forall id ensures CountFor(Bump(w.counts, Fired(cfg, item)), id)
                        == CountFor(w.counts, id) + TimesFired(cfg, [item], id)
      {
        BumpAdds(w.counts, Fired(cfg, item), id);
      }
      if cfg.options.cohort.Some? {
        OfferedOne(cfg, w.kept, item);
      }
    }
  }

  /** What a page has come to: `part` are its items within the limit. */
  ghost predicate PageTaken(cfg: Config, w: Work, items: seq<Item>, part: seq<Item>, taken: Option<Work>) {
    var m := Members(cfg, part);
    && (taken.Some? <==> AllTakeable(cfg, part) && (cfg.options.cohort.Some? ==> Offered(cfg, w.kept, m).Some?))
    && (taken.Some? ==>
          && Adds(cfg, w, m, taken.value)
          && taken.value.scanned == w.scanned + (if |part| < |items| then |part| + 1 else |items|)
          && (taken.value.truncated <==> w.truncated || |part| < |items|))
  }

  /** How many of the items of a page are within the limit of a bounded capture. */
  function Room(cfg: Config, taken: nat, items: seq<Item>): (n: nat)
    requires cfg.options.Limited() ==> taken <= cfg.options.maxItems
    ensures n <= |items|
  {
    if cfg.options.Limited() && cfg.options.maxItems - taken < |items| then cfg.options.maxItems - taken else |items|
  }

  lemma AddsNothing(cfg: Config, w: Work, v: Work)
    requires v.(scanned := w.scanned, truncated := w.truncated) == w
    ensures Adds(cfg, w, [], v) && (cfg.options.cohort.Some? ==> Offered(cfg, w.kept, []) == Some(w.kept))
  {
    assert Rows(cfg, []) == [] && Text([]) == [] && v.rows + [] == v.rows;
    if cfg.options.cohort.Some? {
      assert Candidates(cfg, []) == [];
    }
  }

  lemma FirstOfPart(cfg: Config, items: seq<Item>, n: nat)
    requires 0 < n <= |items|
    ensures Members(cfg, items[..n]) == Members(cfg, [items[0]]) + Members(cfg, items[1..][..n - 1])
    ensures AllTakeable(cfg, items[..n]) <==> Takeable(cfg, items[0]) && AllTakeable(cfg, items[1..][..n - 1])
  {
    hide Takeable;
    var part, rest := items[..n], items[1..][..n - 1];
    assert part == [items[0]] + rest;
    MembersSplit(cfg, [items[0]], rest);
    if AllTakeable(cfg, part) {
      forall i | 0 <= i < |rest| ensures Takeable(cfg, rest[i]) {
        assert rest[i] == part[i + 1];
      }
      assert Takeable(cfg, part[0]);
    }
  }

  /** What is left of the limit behind the first item. */
  lemma RoomBehind(cfg: Config, w: Work, items: seq<Item>, taken: Work)
    requires (cfg.options.Limited() ==> w.items <= cfg.options.maxItems) && 0 < Room(cfg, w.items, items)
    requires taken.items == w.items + |Members(cfg, [items[0]])|
    ensures cfg.options.Limited() ==> taken.items <= cfg.options.maxItems
    ensures Room(cfg, taken.items, items[1..]) == Room(cfg, w.items, items) - 1
  {
    OneMember(cfg, items[0]);
  }

  lemma NoneTaken(cfg: Config, w: Work, items: seq<Item>)
    requires (cfg.options.Limited() ==> w.items <= cfg.options.maxItems) && Room(cfg, w.items, items) == 0
    ensures PageTaken(cfg, w, items, items[..0], TakeAll(cfg, w, items))
  {
    AddsNothing(cfg, w, TakeAll(cfg, w, items).value);
    hide Adds, Offered;
  }

  lemma StepOfPage(cfg: Config, w: Work, items: seq<Item>)
    requires (cfg.options.Limited() ==> w.items <= cfg.options.maxItems) && 0 < Room(cfg, w.items, items)
    ensures var taken := TakeIfEligible(cfg, w.(scanned := w.scanned + 1), items[0]);
            TakeAll(cfg, w, items) == if taken.None? then None else TakeAll(cfg, taken.value, items[1..])
  {
    hide TakeIfEligible;
  }

  /** The first item, and then the rest of the page. */
  lemma FirstAndRest(cfg: Config, w: Work, items: seq<Item>, n: nat, first: Option<Work>, last: Option<Work>)
    requires 0 < n <= |items|
    requires first.Some? <==> Takeable(cfg, items[0])
                              && (cfg.options.cohort.Some? ==> Offered(cfg, w.kept, Members(cfg, [items[0]])).Some?)
    requires first.Some? ==>
               && Adds(cfg, w, Members(cfg, [items[0]]), first.value) && first.value.scanned == w.scanned + 1
               && first.value.truncated == w.truncated
    requires if first.None? then last.None? else PageTaken(cfg, first.value, items[1..], items[1..][..n - 1], last)
    ensures PageTaken(cfg, w, items, items[..n], last)
  {
    var m, rest := Members(cfg, [items[0]]), Members(cfg, items[1..][..n - 1]);
    FirstOfPart(cfg, items, n);
    if cfg.options.cohort.Some? {
      OfferedSplit(cfg, w.kept, m, rest);
      if first.Some? {
        SampleAfter(cfg, w, m, first.value);
      }
    }
    if last.Some? {
      AddsBoth(cfg, w, m, first.value, rest, last.value);
    }
    hide Takeable, AllTakeable, Offered, Adds, Members;
  }

  lemma SampleAfter(cfg: Config, w: Work, m: seq<Item>, v: Work)
    requires (forall i | i in m :: Belongs(cfg, i)) && Adds(cfg, w, m, v) && cfg.options.cohort.Some?
    ensures Offered(cfg, w.kept, m) == Some(v.kept)
  {
  }

  /** A page: it fails exactly if one of the items within the limit does, or one of them
      does not fit the sample; otherwise all of them are captured. */
  lemma {:induction false} TakesPage(cfg: Config, w: Work, items: seq<Item>)
    requires cfg.options.Limited() ==> w.items <= cfg.options.maxItems
    ensures PageTaken(cfg, w, items, items[..Room(cfg, w.items, items)], TakeAll(cfg, w, items))
    decreases |items|
  {
    hide TakeIfEligible, Takeable, Offered, Room, PageTaken, TakeAll;
    var n := Room(cfg, w.items, items);
    if n == 0 {
      NoneTaken(cfg, w, items);
    } else {
      var first := TakeIfEligible(cfg, w.(scanned := w.scanned + 1), items[0]);
      TakesOne(cfg, w.(scanned := w.scanned + 1), items[0]);
      StepOfPage(cfg, w, items);
      if first.Some? {
        RoomBehind(cfg, w, items, first.value);
        TakesPage(cfg, first.value, items[1..]);
      }
      FirstAndRest(cfg, w, items, n, first, TakeAll(cfg, w, items));
    }
  }

  // ------------------------------------------------------------- many pages

  function ItemsOf(pages: seq<Page>): seq<Item> {
    if pages == [] then [] else ItemsOf(pages[..|pages| - 1]) + pages[|pages| - 1].items
  }

  function Capacity(pages: seq<Page>): int {
    if pages == [] then 0 else Capacity(pages[..|pages| - 1]) + pages[|pages| - 1].capacity
  }

  /** Where a scan goes on after these pages. */
  function KeyAfter(pages: seq<Page>): Item {
    if pages == [] then map[] else pages[|pages| - 1].next
  }

  /** The items a capture looks at: a bounded one stops at its limit. */
  function Within(cfg: Config, items: seq<Item>): (r: seq<Item>)
    ensures |r| <= |items|
  {
    if cfg.options.Limited() && cfg.options.maxItems < |items| then items[..cfg.options.maxItems] else items
  }

  /** Each page continues the one before; a bounded capture asks for no more items than
      it may still take. */
  ghost predicate IsScan(cfg: Config, pages: seq<Page>) {
    pages != [] ==>
      var before := pages[..|pages| - 1];
      && IsScan(cfg, before)
      && cfg.source.scan(KeyAfter(before),
                         if cfg.options.Limited() then Some(cfg.options.maxItems - |Within(cfg, ItemsOf(before))|)
                         else None) == Some(pages[|pages| - 1])
  }

  /** A limit of a bounded capture has left something in the table. */
  predicate CutOff(cfg: Config, pages: seq<Page>) {
    && cfg.options.Limited()
    && (|ItemsOf(pages)| > cfg.options.maxItems
        || (KeyAfter(pages) != map[]
            && (|pages| == cfg.options.maxPages || |ItemsOf(pages)| == cfg.options.maxItems)))
  }

  /** The numbers of a capture. */
  ghost predicate Tallied(cfg: Config, items: nat, sourceBytes: nat, counts: map<RuleId, int>, m: seq<Item>) {
    && items == |m| && sourceBytes == |Text(Rows(cfg, m))|
    && forall id :: CountFor(counts, id) == TimesFired(cfg, m, id)
  }

  /** The rows of a capture, or its sample. */
  ghost predicate Kept(cfg: Config, pageRows: seq<seq<Bytes>>, kept: seq<Candidate>, m: seq<Item>)
    requires forall i | i in m :: Belongs(cfg, i)
  {
    if cfg.options.cohort.None? then kept == [] && multiset(Flatten(pageRows)) == multiset(Rows(cfg, m))
    else pageRows == [] && Offered(cfg, [], m) == Some(kept)
  }

  /** The state stands behind these pages. */
  ghost predicate StandsBehind(cfg: Config, s: State, pages: seq<Page>) {
    && IsScan(cfg, pages) && |pages| == s.pages && s.key == KeyAfter(pages) && s.consumed == Capacity(pages)
    && (s.truncated <==> CutOff(cfg, pages))
    && (s.complete <==> pages != [] && (s.key == map[] || s.truncated))
  }

  /** The state has what these items give. */
  ghost predicate Has(cfg: Config, s: State, all: seq<Item>) {
    var seen := Within(cfg, all);
    && AllTakeable(cfg, seen) && s.scanned == (if |seen| < |all| then |seen| + 1 else |all|)
    && Tallied(cfg, s.items, s.sourceBytes, s.counts, Members(cfg, seen))
    && Kept(cfg, s.pageRows, s.kept, Members(cfg, seen))
  }

  /** The state after these pages, in terms of their items. */
  ghost predicate Captured(cfg: Config, s: State, pages: seq<Page>) {
    StandsBehind(cfg, s, pages) && Has(cfg, s, ItemsOf(pages))
  }

  lemma NothingCaptured(cfg: Config)
    ensures Captured(cfg, Initial, [])
  {
    assert Rows(cfg, []) == [];
    if cfg.options.cohort.Some? {
      assert Candidates(cfg, []) == [];
    }
  }

  /** An unfinished capture has looked at everything it has scanned. */
  lemma AllWithin(cfg: Config, s: State, pages: seq<Page>)
    requires StateOk(cfg, s) && Captured(cfg, s, pages) && !s.complete
    ensures Within(cfg, ItemsOf(pages)) == ItemsOf(pages) && s.scanned == |ItemsOf(pages)| && !s.truncated
    ensures cfg.options.Limited() ==> s.items == |ItemsOf(pages)| < cfg.options.maxItems
  {
    if cfg.options.Limited() {
      AllMembers(cfg, Within(cfg, ItemsOf(pages)));
    }
  }

  lemma PagesMore(pages: seq<Page>, page: Page)
    ensures ItemsOf(pages + [page]) == ItemsOf(pages) + page.items
    ensures Capacity(pages + [page]) == Capacity(pages) + page.capacity && KeyAfter(pages + [page]) == page.next
  {
    assert (pages + [page])[..|pages|] == pages;
  }

  lemma ScanMore(cfg: Config, s: State, pages: seq<Page>, page: Page)
    requires IsScan(cfg, pages) && PageRequest(cfg, s) == Some(page) && s.key == KeyAfter(pages)
    requires cfg.options.Limited() ==> s.items == |Within(cfg, ItemsOf(pages))| <= cfg.options.maxItems
    ensures IsScan(cfg, pages + [page])
  {
    assert (pages + [page])[..|pages|] == pages;
  }

  lemma WithinMore(cfg: Config, taken: nat, all: seq<Item>, items: seq<Item>)
    requires Within(cfg, all) == all && (cfg.options.Limited() ==> taken == |all| <= cfg.options.maxItems)
    ensures Within(cfg, all + items) == all + items[..Room(cfg, taken, items)]
    ensures |Within(cfg, all + items)| == |all| + Room(cfg, taken, items)
  {
    assert all + items[..Room(cfg, taken, items)] == (all + items)[..|all| + Room(cfg, taken, items)];
  }

  lemma CountedMore(cfg: Config, s: State, m: seq<Item>, w: Work, more: seq<Item>)
    requires forall i | i in more :: Belongs(cfg, i)
    requires Tallied(cfg, s.items, s.sourceBytes, s.counts, m) && Adds(cfg, Begin(s), more, w)
    ensures Tallied(cfg, w.items, w.sourceBytes, w.counts, m + more)
  {
    hide Text, TimesFired, Run;
    TextSplit(cfg, m, more);
    forall id ensures CountFor(w.counts, id) == TimesFired(cfg, m + more, id) {
      FiredSplit(cfg, m, more, id);
    }
  }

  lemma KeptMore(cfg: Config, s: State, m: seq<Item>, w: Work, more: seq<Item>)
    requires (forall i | i in m + more :: Belongs(cfg, i)) && (forall i | i in m :: Belongs(cfg, i))
    requires forall i | i in more :: Belongs(cfg, i)
    requires Kept(cfg, s.pageRows, s.kept, m) && Adds(cfg, Begin(s), more, w)
    ensures Kept(cfg, if cfg.options.cohort.None? then s.pageRows + [Sort(Le, w.rows)] else s.pageRows, w.kept,
                 m + more)
  {
    hide Text, TimesFired, Run, Sort;
    if cfg.options.cohort.None? {
      assert [] + Rows(cfg, more) == Rows(cfg, more);
      FlattenAppend(s.pageRows, Sort(Le, w.rows));
      SortMultiset(Le, w.rows);
      TextSplit(cfg, m, more);
    } else {
      OfferedSplit(cfg, [], m, more);
    }
  }

  lemma TakeableMore(cfg: Config, all: seq<Item>, part: seq<Item>)
    ensures AllTakeable(cfg, all + part) <==> AllTakeable(cfg, all) && AllTakeable(cfg, part)
  {
    hide Takeable;
    if AllTakeable(cfg, all + part) {
      forall i | 0 <= i < |all| ensures Takeable(cfg, all[i]) {
        assert (all + part)[i] == all[i];
      }
      forall i | 0 <= i < |part| ensures Takeable(cfg, part[i]) {
        assert (all + part)[|all| + i] == part[i];
      }
    }
  }

  /** What the work on a page has made of all items, with the rows of earlier pages. */
  ghost predicate MembersAfter(cfg: Config, s: State, all: seq<Item>, w: Work) {
    var seen := Within(cfg, all);
    && AllTakeable(cfg, seen) && Tallied(cfg, w.items, w.sourceBytes, w.counts, Members(cfg, seen))
    && Kept(cfg, if cfg.options.cohort.None? then s.pageRows + [Sort(Le, w.rows)] else s.pageRows, w.kept,
            Members(cfg, seen))
    && w.scanned == (if |seen| < |all| then |seen| + 1 else |all|) && (w.truncated <==> |seen| < |all|)
  }

  /** What a page makes of the items seen so far. */
  lemma MembersMore(cfg: Config, s: State, all: seq<Item>, items: seq<Item>, w: Work)
    requires Within(cfg, all) == all && (cfg.options.Limited() ==> s.items == |all| <= cfg.options.maxItems)
    requires AllTakeable(cfg, all) && s.scanned == |all| && !s.truncated
    requires Tallied(cfg, s.items, s.sourceBytes, s.counts, Members(cfg, all))
             && Kept(cfg, s.pageRows, s.kept, Members(cfg, all))
    requires TakeAll(cfg, Begin(s), items) == Some(w)
    ensures MembersAfter(cfg, s, all + items, w)
  {
    hide Takeable, AllTakeable, Adds, Offered, TakeAll, Members, Tallied, Kept, Within;
    var part := items[..Room(cfg, s.items, items)];
    WithinMore(cfg, s.items, all, items);
    TakesPage(cfg, Begin(s), items);
    MembersSplit(cfg, all, part);
    TakeableMore(cfg, all, part);
    CountedMore(cfg, s, Members(cfg, all), w, Members(cfg, part));
    KeptMore(cfg, s, Members(cfg, all), w, Members(cfg, part));
  }

  /** How a page ends a bounded capture. */
  lemma EndsCutOff(cfg: Config, s: State, pages: seq<Page>, page: Page, w: Work)
    requires !s.truncated && |pages| == s.pages && KeyAfter(pages + [page]) == page.next
    requires MembersAfter(cfg, s, ItemsOf(pages + [page]), w)
    ensures EndPage(cfg, s, page, w).truncated <==> CutOff(cfg, pages + [page])
  {
    if cfg.options.Limited() {
      AllMembers(cfg, Within(cfg, ItemsOf(pages + [page])));
    }
    hide Sort, Members;
  }

  /** One more page. */
  lemma CapturesPage(cfg: Config, s: State, pages: seq<Page>, page: Page, w: Work)
    requires StateOk(cfg, s) && Captured(cfg, s, pages) && !s.complete
    requires PageRequest(cfg, s) == Some(page) && TakeAll(cfg, Begin(s), page.items) == Some(w)
    ensures Captured(cfg, EndPage(cfg, s, page, w), pages + [page])
  {
    AllWithin(cfg, s, pages);
    PagesMore(pages, page);
    MembersMore(cfg, s, ItemsOf(pages), page.items, w);
    HasMore(cfg, s, ItemsOf(pages), page, w);
    StandsMore(cfg, s, pages, page, w);
    hide StateOk, StandsBehind, Has, TakeAll, ItemsOf, EndPage;
  }

  lemma HasMore(cfg: Config, s: State, all: seq<Item>, page: Page, w: Work)
    requires MembersAfter(cfg, s, all + page.items, w)
    ensures Has(cfg, EndPage(cfg, s, page, w), all + page.items)
  {
    hide AllTakeable, Members, Tallied, Kept, Within, Sort;
  }

  lemma StandsMore(cfg: Config, s: State, pages: seq<Page>, page: Page, w: Work)
    requires StandsBehind(cfg, s, pages) && !s.complete && !s.truncated && PageRequest(cfg, s) == Some(page)
    requires cfg.options.Limited() ==> s.items == |Within(cfg, ItemsOf(pages))| <= cfg.options.maxItems
    requires MembersAfter(cfg, s, ItemsOf(pages + [page]), w)
    ensures StandsBehind(cfg, EndPage(cfg, s, page, w), pages + [page])
  {
    PagesMore(pages, page);
    ScanMore(cfg, s, pages, page);
    EndsCutOff(cfg, s, pages, page, w);
    hide IsScan, AllTakeable, Members, Kept, Within, ItemsOf, Capacity, CutOff, Sort;
  }

  lemma {:induction false} PagesCaptured(cfg: Config, n: nat) returns (pages: seq<Page>)
    requires Tame(cfg) && Pages(cfg, n).Some?
    ensures Captured(cfg, Pages(cfg, n).value, pages)
  {
    hide Tame, StateOk, Captured;
    pages := [];
    if n == 0 {
      NothingCaptured(cfg);
    } else {
      pages := PagesCaptured(cfg, n - 1);
      PagesOk(cfg, n - 1);
      var s := Pages(cfg, n - 1).value;
      if !s.complete {
        var page := PageRequest(cfg, s).value;
        CapturesPage(cfg, s, pages, page, TakeAll(cfg, Begin(s), page.items).value);
        pages := pages + [page];
      }
    }
  }

  /** A reached state has looked at the items of the pages it has scanned, up to the limit
      of a bounded capture, and has captured those that belong, governed, with exact
      numbers. It is complete exactly if the table has ended or a limit has cut it off. */
  lemma ReachedCaptured(cfg: Config, s: State) returns (pages: seq<Page>)
    requires Tame(cfg) && Reached(cfg, s)
    ensures Captured(cfg, s, pages)
  {
    var n: nat :| Pages(cfg, n) == Some(s);
    pages := PagesCaptured(cfg, n);
  }

  /** The capture comes to an error exactly if the scan does, an item within the limit
      cannot be judged, governed or written, or a member does not fit the sample. */
  lemma PageFails(cfg: Config, s: State, pages: seq<Page>)
    requires Tame(cfg) && StateOk(cfg, s) && Captured(cfg, s, pages) && !s.complete
    ensures PageStep(cfg, s).None? <==>
            || PageRequest(cfg, s).None?
            || var seen := Within(cfg, ItemsOf(pages) + PageRequest(cfg, s).value.items);
               !AllTakeable(cfg, seen) || (cfg.options.cohort.Some? && Offered(cfg, [], Members(cfg, seen)).None?)
  {
    AllWithin(cfg, s, pages);
    if PageRequest(cfg, s).Some? {
      var all, page := ItemsOf(pages), PageRequest(cfg, s).value;
      RequestGood(cfg, s);
      CursorRoundTrip(cfg.documents.go, page.next);
      hide Tame, StateOk, Takeable, TakeAll;
      WithinMore(cfg, s.items, all, page.items);
      TakesPage(cfg, Begin(s), page.items);
      var part := page.items[..Room(cfg, s.items, page.items)];
      MembersSplit(cfg, all, part);
      TakeableMore(cfg, all, part);
      if cfg.options.cohort.Some? {
        OfferedSplit(cfg, [], Members(cfg, all), Members(cfg, part));
      }
    }
  }

  // ------------------------------------------------------ a finished capture

  /** The rows of a finished capture, sorted: one for each captured item, or the values of
      the retained candidates. */
  ghost function RowsKept(cfg: Config, m: seq<Item>): seq<Bytes>
    requires forall i | i in m :: Belongs(cfg, i)
  {
    if cfg.options.cohort.None? then Sort(Le, Rows(cfg, m))
    else Sort(Le, ValuesOf(Best(cfg.options.cohort.value.limit, Candidates(cfg, m))))
  }

  /** A result that stands for exactly the items of these pages. */
  ghost predicate ResultHas(cfg: Config, r: DataResult, pages: seq<Page>) {
    var seen := Within(cfg, ItemsOf(pages));
    var m := Members(cfg, seen);
    && IsScan(cfg, pages) && pages != [] && (KeyAfter(pages) == map[] || CutOff(cfg, pages)) && AllTakeable(cfg, seen)
    && r.items == |m| && r.pages == |pages| && r.consumed == Capacity(pages)
    && (forall id :: CountFor(r.counts, id) == TimesFired(cfg, m, id))
    && (r.truncated <==> if cfg.options.cohort.None? then CutOff(cfg, pages) else |m| > cfg.options.cohort.value.limit)
    && ChunkData(r.dataset.chunks) == Text(RowsKept(cfg, m)) && r.dataset.records == |RowsKept(cfg, m)|
    && TotalsMatch(r.dataset)
  }

  lemma KeptRows(cfg: Config, s: State, m: seq<Item>)
    requires Tame(cfg) && StateOk(cfg, s) && forall i | i in m :: Belongs(cfg, i)
    requires Kept(cfg, s.pageRows, s.kept, m)
    ensures FinalRows(cfg, s) == RowsKept(cfg, m)
  {
    ByteOrder();
    if cfg.options.cohort.None? {
      SortPermutation(Le, Flatten(s.pageRows), Rows(cfg, m));
    } else {
      RunRetainsBest(cfg.options.cohort.value.limit, cfg.options.cohort.value.ceiling, Candidates(cfg, m));
    }
  }

  lemma PlainRow(cfg: Config, s: State, r: Bytes)
    requires Tame(cfg) && StateOk(cfg, s)
    requires r in if cfg.options.cohort.None? then Flatten(s.pageRows) else ValuesOf(s.kept)
    ensures NEWLINE !in r
  {
    if cfg.options.cohort.None? {
      var k := FlattenMember(s.pageRows, r);
      assert IsRun(s.pageRows[k]) && IsDocument(r);
    } else {
      var i :| 0 <= i < |s.kept| && s.kept[i].value == r;
      assert s.kept[i] in s.kept;
      var item :| CanonicalText(cfg.documents, item) == Some(r);
      assert IsDocument(r);
    }
  }

  lemma PlainRows(cfg: Config, s: State)
    requires Tame(cfg) && StateOk(cfg, s)
    ensures forall r | r in FinalRows(cfg, s) :: NEWLINE !in r
  {
    var rows := if cfg.options.cohort.None? then Flatten(s.pageRows) else ValuesOf(s.kept);
    SortMultiset(Le, rows);
    hide Tame, StateOk;
    forall r | r in FinalRows(cfg, s) ensures NEWLINE !in r {
      assert r in multiset(Sort(Le, rows)) && r in rows;
      PlainRow(cfg, s, r);
    }
  }

  /** What a finished capture hands over is what the pages it has scanned contain. */
  lemma FinishedHas(cfg: Config, s: State) returns (pages: seq<Page>)
    requires Tame(cfg) && Reached(cfg, s) && s.complete
    ensures ResultHas(cfg, ResultOf(cfg, s), pages)
  {
    pages := ReachedCaptured(cfg, s);
    ReachedOk(cfg, s);
    var m := Members(cfg, Within(cfg, ItemsOf(pages)));
    KeptRows(cfg, s, m);
    PlainRows(cfg, s);
    LinesOfRows(FinalRows(cfg, s));
    ChunksOfCapture(Text(FinalRows(cfg, s)));
    hide Tame, StateOk, Members, Within, ItemsOf, FinalRows, RowsKept, Packs, AllTakeable;
  }

  // ----------------------------------------------------- how much may be lost

  /** A governed capture has saved all but a bounded part of what it has scanned. */
  ghost predicate SavedRecently(cfg: Config, s: State) {
    cfg.options.governed && s.pages > 0 ==>
      && (s.complete ==> s.savedItems == s.scanned && s.savedBytes == s.sourceBytes)
      && s.savedItems <= s.scanned < s.savedItems + 100_000
      && s.savedBytes <= s.sourceBytes < s.savedBytes + 128 * 1024 * 1024
  }

  lemma InitialSaved(cfg: Config)
    ensures SavedRecently(cfg, Initial)
  {
  }

  lemma SavesOnTime(cfg: Config, s: State, page: Page, w: Work)
    requires SavedRecently(cfg, s) && w.scanned >= s.scanned && w.sourceBytes >= s.sourceBytes
    ensures SavedRecently(cfg, EndPage(cfg, s, page, w))
  {
    hide Sort;
  }

  lemma {:induction false} SavesRecently(cfg: Config, n: nat)
    requires Tame(cfg) && Pages(cfg, n).Some?
    ensures SavedRecently(cfg, Pages(cfg, n).value)
  {
    hide StateOk, SavedRecently;
    if n == 0 {
      InitialSaved(cfg);
    } else {
      SavesRecently(cfg, n - 1);
      PagesOk(cfg, n - 1);
      var s := Pages(cfg, n - 1).value;
      if !s.complete {
        var page := PageRequest(cfg, s).value;
        var w := TakeAll(cfg, Begin(s), page.items).value;
        PageGrows(cfg, s, page, w);
        SavesOnTime(cfg, s, page, w);
      }
    }
  }

  lemma PageGrows(cfg: Config, s: State, page: Page, w: Work)
    requires StateOk(cfg, s) && TakeAll(cfg, Begin(s), page.items) == Some(w)
    ensures w.scanned >= s.scanned && w.sourceBytes >= s.sourceBytes
  {
    TakesPage(cfg, Begin(s), page.items);
    hide AllTakeable, Members, TakeAll;
  }

  /** Whenever a governed capture is interrupted between two pages, its checkpoint lacks
      fewer than 100 000 scanned items and fewer than 128 MiB of rows, and nothing once it
      is complete. */
  lemma ReachedSaved(cfg: Config, s: State)
    requires Tame(cfg) && Reached(cfg, s)
    ensures SavedRecently(cfg, s)
  {
    var n: nat :| Pages(cfg, n) == Some(s);
    SavesRecently(cfg, n);
  }
}
