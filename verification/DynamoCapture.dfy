/** What one page does to an uninterrupted DynamoDB capture, and what the finished
    state amounts to (captureData, without the detector). */
module DynamoCapture {
  import opened ByteStrings
  import opened Sorting
  import opened Lines
  import opened Sequences
  import opened AttributeCodec
  import opened Cohort
  import opened ExternalMerge
  import opened Manifest
  import opened Packing
  import opened DynamoChunks
  import opened ProtectedState
  import opened GovernedState
  import opened Wrappers

  const CHECKPOINT_ITEMS: nat := 100_000
  const CHECKPOINT_BYTES: nat := 134_217_728

  datatype Options = Options(full: bool, maxItems: nat, maxPages: nat, governed: bool, cohort: Option<CohortLimits>) {
    /** The limits of a bounded capture apply only without a cohort. */
    predicate Limited() {
      !full && cohort.None?
    }

    /** captureData refuses other options before it starts. */
    predicate Legal() {
      && (cohort.Some? ==> governed && cohort.value.limit > 0 && cohort.value.ceiling >= RANK_SIZE)
      && (Limited() ==> maxItems > 0 && maxPages > 0)
    }
  }

  /** One ScanOutput; an empty key ends the table. */
  datatype Page = Page(items: seq<Item>, next: Item, capacity: int)

  /** The table and the policy, as functions: a scan depends on the cursor and the
      requested limit only. None stands for an error. */
  datatype Source = Source(
    scan: (Item, Option<nat>) -> Option<Page>,
    eligible: Item -> Option<Option<seq<Bytes>>>,
    govern: Item -> Option<(Item, seq<RuleId>)>,
    rankOf: seq<Bytes> -> Bytes)

  datatype Config = Config(options: Options, source: Source, documents: Documents, vault: Vault, policy: Policy)

  /** What the model takes for granted about tables, ranks and text. */
  ghost predicate Tame(cfg: Config) {
    && cfg.options.Legal() && cfg.policy.cohort == cfg.options.cohort
    && Readable(cfg.documents) && (forall j :: IsDocument(cfg.documents.text(j)))
    && (forall keyValues :: |cfg.source.rankOf(keyValues)| == RANK_SIZE)
    && (forall key, limit :: cfg.source.scan(key, limit).Some? ==> GoodPage(cfg.source.scan(key, limit).value))
    && (forall item :: cfg.source.govern(item).Some? ==> KnownRules(cfg.policy, cfg.source.govern(item).value.1))
  }

  /** Key attributes are scalars, and capacity is never negative. */
  predicate GoodPage(page: Page) {
    KeyAttributes(page.next) && page.capacity >= 0
  }

  predicate KeyAttributes(key: Item) {
    forall k | k in key :: Scalar(key[k])
  }

  predicate KnownRules(p: Policy, fired: seq<RuleId>) {
    forall id | id in fired :: id in p.rules
  }

  /** The loop over the items of one page. */
  datatype Work = Work(rows: seq<Bytes>, kept: seq<Candidate>, items: nat, truncated: bool, sourceBytes: nat,
                       counts: map<RuleId, int>, scanned: nat)

  function Bump(counts: map<RuleId, int>, fired: seq<RuleId>): map<RuleId, int>
    decreases |fired|
  {
    if fired == [] then counts
    else Bump(counts[fired[0] := 1 + if fired[0] in counts then counts[fired[0]] else 0], fired[1..])
  }

  /** Governs and writes out one item that is captured, and counts it. */
  function TakeItem(cfg: Config, w: Work, keyValues: seq<Bytes>, item: Item): Option<Work> {
    var governed := if cfg.options.governed then cfg.source.govern(item) else Some((item, []));
    if governed.None? then None
    else
      var text := CanonicalText(cfg.documents, governed.value.0);
      if text.None? then None else Keep(cfg, w, keyValues, text.value, governed.value.1)
  }

  /** Adds a governed item to the page or offers it to the sample. */
  function Keep(cfg: Config, w: Work, keyValues: seq<Bytes>, text: Bytes, fired: seq<RuleId>): Option<Work> {
    if cfg.options.cohort.None? then Some(Tally(w, w.rows + [text], w.kept, text, fired))
    else
      var c := cfg.options.cohort.value;
      var kept := Offer(c.limit, c.ceiling, w.kept, Candidate(cfg.source.rankOf(keyValues), text));
      if kept.None? then None else Some(Tally(w, w.rows, kept.value, text, fired))
  }

  function Tally(w: Work, rows: seq<Bytes>, kept: seq<Candidate>, text: Bytes, fired: seq<RuleId>): Work {
    Work(rows, kept, w.items + 1, w.truncated, w.sourceBytes + |text| + 1, Bump(w.counts, fired), w.scanned)
  }

  function TakeIfEligible(cfg: Config, w: Work, item: Item): Option<Work> {
    if cfg.options.cohort.None? then TakeItem(cfg, w, [], item)
    else
      match cfg.source.eligible(item)
      case None => None
      case Some(None) => Some(w)
      case Some(Some(keyValues)) => TakeItem(cfg, w, keyValues, item)
  }

  function TakeAll(cfg: Config, w: Work, items: seq<Item>): Option<Work>
    decreases |items|
  {
    if items == [] then Some(w)
    else
      var seen := w.(scanned := w.scanned + 1);
      if cfg.options.Limited() && w.items >= cfg.options.maxItems then Some(seen.(truncated := true))
      else
        var taken := TakeIfEligible(cfg, seen, items[0]);
        if taken.None? then None else TakeAll(cfg, taken.value, items[1..])
  }

  /** The state of a capture between two pages. Page number k + 1 has the rows
      pageRows[k]; savedItems and savedBytes say when a governed capture last
      wrote a checkpoint. */
  datatype State = State(key: Item, complete: bool, pageRows: seq<seq<Bytes>>, kept: seq<Candidate>, items: nat,
                         pages: nat,
                         truncated: bool, sourceBytes: nat, consumed: int, counts: map<RuleId, int>, scanned: nat,
                         savedItems: nat, savedBytes: nat)

  const Initial: State := State(map[], false, [], [], 0, 0, false, 0, 0, map[], 0, 0, 0)

  function PageRequest(cfg: Config, s: State): Option<Page> {
    cfg.source.scan(s.key, if cfg.options.Limited() && s.items <= cfg.options.maxItems
                           then Some(cfg.options.maxItems - s.items) else None)
  }

  function Begin(s: State): Work {
    Work([], s.kept, s.items, s.truncated, s.sourceBytes, s.counts, s.scanned)
  }

  /** The bookkeeping after the items of a page. */
  function EndPage(cfg: Config, s: State, page: Page, w: Work): State {
    var o := cfg.options;
    var pages := s.pages + 1;
    var truncated := w.truncated
      || (o.Limited() && page.next != map[] && (pages == o.maxPages || w.items == o.maxItems));
    var complete := page.next == map[] || truncated;
    var due := o.governed && Due(s, pages, w, complete);
    State(page.next, complete, if o.cohort.None? then s.pageRows + [Sort(Le, w.rows)] else s.pageRows, w.kept,
          w.items, pages, truncated, w.sourceBytes, s.consumed + page.capacity, w.counts, w.scanned,
          if due then w.scanned else s.savedItems, if due then w.sourceBytes else s.savedBytes)
  }

  /** When a governed capture writes a checkpoint; others do after every page. */
  predicate Due(s: State, pages: nat, w: Work, complete: bool) {
    pages == 1 || w.scanned - s.savedItems >= CHECKPOINT_ITEMS || w.sourceBytes - s.savedBytes >= CHECKPOINT_BYTES
        || complete
  }

  function PageStep(cfg: Config, s: State): Option<State> {
    var page := PageRequest(cfg, s);
    if page.None? then None
    else
      var w := TakeAll(cfg, Begin(s), page.value.items);
      if w.None? || CanonicalText(cfg.documents, page.value.next).None? then None
      else Some(EndPage(cfg, s, page.value, w.value))
  }

  /** The uninterrupted capture after n pages; a complete one stays as it is. */
  function Pages(cfg: Config, n: nat): Option<State> {
    if n == 0 then Some(Initial) else Advance(cfg, Pages(cfg, n - 1))
  }

  function Advance(cfg: Config, s: Option<State>): Option<State> {
    if s.None? || s.value.complete then s else PageStep(cfg, s.value)
  }

  ghost predicate Reached(cfg: Config, s: State) {
    exists n: nat :: Pages(cfg, n) == Some(s)
  }

  /** What a capture hands over when it finishes. */
  datatype DataResult = DataResult(dataset: Dataset<Bytes>, items: nat, pages: nat, truncated: bool, consumed: int,
                                   counts: map<RuleId, int>)

  function FinalRows(cfg: Config, s: State): seq<Bytes> {
    if cfg.options.cohort.None? then Sort(Le, Flatten(s.pageRows)) else Sort(Le, ValuesOf(s.kept))
  }

  function ResultOf(cfg: Config, s: State): DataResult {
    var lines := SplitLines(Text(FinalRows(cfg, s)));
    DataResult(Dataset(|lines|, |Text(FinalRows(cfg, s))|, Chunks(Packs(ChunkRule, lines))), s.items, s.pages,
           if cfg.options.cohort.None? then s.truncated else s.items > cfg.options.cohort.value.limit,
           s.consumed, s.counts)
  }

  // ------------------------------------------------- the uninterrupted run

  lemma {:induction false} CompleteStays(cfg: Config, m: nat, n: nat)
    requires m <= n && Pages(cfg, m).Some? && Pages(cfg, m).value.complete
    ensures Pages(cfg, n) == Pages(cfg, m)
  {
    if m < n {
      CompleteStays(cfg, m, n - 1);
    }
  }

  /** An uninterrupted capture has at most one final state. */
  lemma FinalStateUnique(cfg: Config, s: State, t: State)
    requires Reached(cfg, s) && Reached(cfg, t) && s.complete && t.complete
    ensures s == t
  {
    var m: nat :| Pages(cfg, m) == Some(s);
    var n: nat :| Pages(cfg, n) == Some(t);
    if m <= n {
      CompleteStays(cfg, m, n);
    } else {
      CompleteStays(cfg, n, m);
    }
  }

  lemma ReachedNext(cfg: Config, s: State)
    requires Reached(cfg, s) && !s.complete && PageStep(cfg, s).Some?
    ensures Reached(cfg, PageStep(cfg, s).value)
  {
    var n: nat :| Pages(cfg, n) == Some(s);
    assert Pages(cfg, n + 1) == PageStep(cfg, s);
  }

  lemma ReachedInitial(cfg: Config)
    ensures Reached(cfg, Initial)
  {
    assert Pages(cfg, 0) == Some(Initial);
  }

  // ------------------------------------------ what every reached state keeps

  /** The text of some document. */
  ghost predicate IsText(d: Documents, text: Bytes) {
    exists item :: CanonicalText(d, item) == Some(text)
  }

  ghost predicate AllText(d: Documents, rows: seq<Bytes>) {
    forall r | r in rows :: IsText(d, r)
  }

  predicate Counted(p: Policy, counts: map<RuleId, int>) {
    forall id | id in counts :: id in p.rules && counts[id] > 0
  }

  /** A sample a selection may hold after `items` eligible items. */
  ghost predicate GoodSample(d: Documents, cohort: Option<CohortLimits>, items: nat, kept: seq<Candidate>) {
    if cohort.None? then kept == []
    else
      && Sorted(CandidateLe, kept) && TotalSize(kept) <= cohort.value.ceiling
      && |kept| == (if items < cohort.value.limit then items else cohort.value.limit)
      && (forall c | c in kept :: |c.rank| == RANK_SIZE && IsText(d, c.value))
  }

  ghost predicate WorkOk(cfg: Config, w: Work) {
    && AllText(cfg.documents, w.rows) && Counted(cfg.policy, w.counts)
    && GoodSample(cfg.documents, cfg.options.cohort, w.items, w.kept)
    && w.items <= w.scanned && (cfg.options.Limited() ==> w.items <= cfg.options.maxItems)
    && (w.truncated ==> cfg.options.Limited())
  }

  ghost predicate StateOk(cfg: Config, s: State) {
    && Counted(cfg.policy, s.counts) && GoodSample(cfg.documents, cfg.options.cohort, s.items, s.kept)
    && s.items <= s.scanned && s.consumed >= 0 && KeyAttributes(s.key)
    && (if cfg.options.cohort.None? then |s.pageRows| == s.pages else s.pageRows == [])
    && (forall k | 0 <= k < |s.pageRows| :: IsRun(s.pageRows[k]) && AllText(cfg.documents, s.pageRows[k]))
    && (cfg.options.Limited() ==> s.items <= cfg.options.maxItems && s.pages <= cfg.options.maxPages)
    && (cfg.options.Limited() && !s.complete ==> s.items < cfg.options.maxItems && s.pages < cfg.options.maxPages)
    && (s.truncated ==> s.complete && cfg.options.Limited())
    && (!s.complete && s.pages > 0 ==> s.key != map[])
  }

  lemma {:induction false} BumpCounted(p: Policy, counts: map<RuleId, int>, fired: seq<RuleId>)
    requires Counted(p, counts) && KnownRules(p, fired)
    ensures Counted(p, Bump(counts, fired))
    decreases |fired|
  {
    if fired != [] {
      assert fired[0] in fired;
      forall id | id in fired[1..] ensures id in fired {}
      BumpCounted(p, counts[fired[0] := 1 + if fired[0] in counts then counts[fired[0]] else 0], fired[1..]);
    }
  }

  lemma GoodSampleOffer(d: Documents, limits: CohortLimits, items: nat, kept: seq<Candidate>, c: Candidate)
    requires GoodSample(d, Some(limits), items, kept) && limits.limit > 0
    requires |c.rank| == RANK_SIZE && IsText(d, c.value)
    requires Offer(limits.limit, limits.ceiling, kept, c).Some?
    ensures GoodSample(d, Some(limits), items + 1, Offer(limits.limit, limits.ceiling, kept, c).value)
  {
    var all := Insert(CandidateLe, kept, c);
    var next := Cohort.Take(all, limits.limit);
    CandidateOrder();
    InsertSorted(CandidateLe, kept, c);
    InsertMultiset(CandidateLe, kept, c);
    forall x | x in next ensures |x.rank| == RANK_SIZE && IsText(d, x.value) {
      assert x in all && x in multiset(all);
      assert x in kept || x == c;
    }
  }

  lemma TakeGoverned(cfg: Config, item: Item)
    requires Tame(cfg)
    ensures cfg.source.govern(item).Some? ==> KnownRules(cfg.policy, cfg.source.govern(item).value.1)
    ensures forall keyValues :: |cfg.source.rankOf(keyValues)| == RANK_SIZE
  {
  }

  /** The sample after an item, whether or not there is a cohort. */
  lemma TakeSample(cfg: Config, w: Work, c: Candidate)
    requires Tame(cfg) && WorkOk(cfg, w) && cfg.options.cohort.Some?
    requires |c.rank| == RANK_SIZE && IsText(cfg.documents, c.value)
    requires Offer(cfg.options.cohort.value.limit, cfg.options.cohort.value.ceiling, w.kept, c).Some?
    ensures GoodSample(cfg.documents, cfg.options.cohort, w.items + 1,
                       Offer(cfg.options.cohort.value.limit, cfg.options.cohort.value.ceiling, w.kept, c).value)
  {
    GoodSampleOffer(cfg.documents, cfg.options.cohort.value, w.items, w.kept, c);
  }

  lemma TakeOk(cfg: Config, w: Work, keyValues: seq<Bytes>, item: Item)
    requires Tame(cfg) && WorkOk(cfg, w) && w.items < w.scanned
    requires cfg.options.Limited() ==> w.items < cfg.options.maxItems
    requires TakeItem(cfg, w, keyValues, item).Some?
    ensures WorkOk(cfg, TakeItem(cfg, w, keyValues, item).value)
  {
    TakeGoverned(cfg, item);
    var governed := if cfg.options.governed then cfg.source.govern(item).value else (item, []);
    BumpCounted(cfg.policy, w.counts, governed.1);
    var text := CanonicalText(cfg.documents, governed.0).value;
    assert IsText(cfg.documents, text);
    if cfg.options.cohort.Some? {
      TakeSample(cfg, w, Candidate(cfg.source.rankOf(keyValues), text));
    }
  }

  lemma {:induction false} TakeAllOk(cfg: Config, w: Work, items: seq<Item>)
    requires Tame(cfg) && WorkOk(cfg, w) && TakeAll(cfg, w, items).Some?
    ensures WorkOk(cfg, TakeAll(cfg, w, items).value)
    decreases |items|
  {
    if items != [] {
      var seen := w.(scanned := w.scanned + 1);
      if !(cfg.options.Limited() && w.items >= cfg.options.maxItems) {
        var taken := TakeIfEligible(cfg, seen, items[0]).value;
        if taken != seen {
          var keyValues := if cfg.options.cohort.None? then [] else cfg.source.eligible(items[0]).value.value;
          TakeOk(cfg, seen, keyValues, items[0]);
        }
        TakeAllOk(cfg, taken, items[1..]);
      }
    }
  }

  lemma TextIsDocument(cfg: Config, rows: seq<Bytes>)
    requires Tame(cfg) && AllText(cfg.documents, rows)
    ensures IsRun(Sort(Le, rows)) && AllText(cfg.documents, Sort(Le, rows))
  {
    ByteOrder();
    SortSorts(Le, rows);
    forall r | r in Sort(Le, rows) ensures IsDocument(r) && IsText(cfg.documents, r) {
      assert r in multiset(Sort(Le, rows)) && r in rows;
      var item :| CanonicalText(cfg.documents, item) == Some(r);
    }
  }

  lemma RequestGood(cfg: Config, s: State)
    requires Tame(cfg) && PageRequest(cfg, s).Some?
    ensures GoodPage(PageRequest(cfg, s).value)
  {
  }

  lemma PageStepOk(cfg: Config, s: State)
    requires Tame(cfg) && StateOk(cfg, s) && !s.complete && PageStep(cfg, s).Some?
    ensures StateOk(cfg, PageStep(cfg, s).value)
  {
    RequestGood(cfg, s);
    var page := PageRequest(cfg, s).value;
    TakeAllOk(cfg, Begin(s), page.items);
    EndPageOk(cfg, s, page, TakeAll(cfg, Begin(s), page.items).value);
  }

  lemma EndPageOk(cfg: Config, s: State, page: Page, w: Work)
    requires Tame(cfg) && StateOk(cfg, s) && !s.complete && WorkOk(cfg, w) && GoodPage(page)
    ensures StateOk(cfg, EndPage(cfg, s, page, w))
  {
    TextIsDocument(cfg, w.rows);
  }

  lemma {:induction false} PagesOk(cfg: Config, n: nat)
    requires Tame(cfg) && Pages(cfg, n).Some?
    ensures StateOk(cfg, Pages(cfg, n).value)
  {
    if n > 0 {
      PagesOk(cfg, n - 1);
      var s := Pages(cfg, n - 1).value;
      if !s.complete {
        PageStepOk(cfg, s);
      }
    }
  }

  lemma ReachedOk(cfg: Config, s: State)
    requires Tame(cfg) && Reached(cfg, s)
    ensures StateOk(cfg, s)
  {
    var n: nat :| Pages(cfg, n) == Some(s);
    PagesOk(cfg, n);
  }

  // ------------------------------------------- a reached state in a checkpoint

  function CursorText(d: Documents, key: Item): Bytes {
    var text := CanonicalText(d, key);
    if key == map[] || text.None? then [] else text.value
  }

  function PagePaths(pages: nat): (r: seq<File>)
    ensures |r| == pages
  {
    seq(pages, k requires 0 <= k < pages => PageRun(k + 1))
  }

  /** sumRun of every page run. */
  function RunRefs(v: Vault, pageRows: seq<seq<Bytes>>): (r: seq<RunRef>)
    ensures |r| == |pageRows|
  {
    seq(|pageRows|, k requires 0 <= k < |pageRows| =>
          RunRef(PageRun(k + 1), v.hash(Text(pageRows[k])), |Text(pageRows[k])|))
  }

  /** The checkpoint fields of a state. */
  function ResumeOf(cfg: Config, s: State): ResumeState {
    ResumeState(CursorText(cfg.documents, s.key), s.complete, RunRefs(cfg.vault, s.pageRows), s.items, s.pages,
                s.truncated, s.sourceBytes, s.consumed, s.counts, |s.kept|, s.scanned)
  }

  /** decodeKey of the saved cursor; no cursor means the start of the table. */
  function CursorOf(d: Documents, text: Bytes): Option<Item> {
    if text == [] then Some(map[]) else ParseItem(d, text)
  }

  /** A checkpoint continues at exactly the place where the capture stood. */
  lemma CursorSurvives(cfg: Config, key: Item)
    requires Tame(cfg) && KeyAttributes(key)
    ensures CursorOf(cfg.documents, CursorText(cfg.documents, key)) == Some(key)
  {
    CursorRoundTrip(cfg.documents.go, key);
    WrittenIsCanonical(cfg.documents, key);
  }

  lemma RunsValid(v: Vault, files: map<File, Bytes>, pageRows: seq<seq<Bytes>>)
    requires HoldsRuns(files, PagePaths(|pageRows|), pageRows)
    ensures ValidRuns(v, files, RunRefs(v, pageRows))
  {
    forall r | r in RunRefs(v, pageRows)
      ensures r.path in files && |files[r.path]| == r.size && v.hash(files[r.path]) == r.digest
    {
      var k :| 0 <= k < |pageRows| && RunRefs(v, pageRows)[k] == r;
      assert PagePaths(|pageRows|)[k] == r.path;
    }
  }

  /** What a capture saves is what the validator was written for. */
  lemma SavedIsWritten(cfg: Config, files: map<File, Bytes>, s: State, sample: seq<Candidate>)
    requires Tame(cfg) && StateOk(cfg, s) && multiset(sample) == multiset(s.kept)
    requires HoldsRuns(files, PagePaths(|s.pageRows|), s.pageRows)
    ensures Written(cfg.vault, cfg.documents, cfg.policy, files, ResumeOf(cfg, s), sample)
  {
    assert |sample| == |multiset(sample)| == |s.kept|;
    RunsValid(cfg.vault, files, s.pageRows);
    CursorSurvives(cfg, s.key);
    SizePermutation(sample, s.kept);
    var text := CursorText(cfg.documents, s.key);
    if text != [] {
      assert CanonicalText(cfg.documents, s.key) == Some(text);
    }
    forall c | c in sample ensures c in s.kept {
      assert c in multiset(sample);
    }
  }

  /** The restored selection is the saved one. */
  lemma SampleSurvives(d: Documents, limits: CohortLimits, items: nat, kept: seq<Candidate>, sample: seq<Candidate>)
    requires GoodSample(d, Some(limits), items, kept) && multiset(sample) == multiset(kept)
    ensures Restore(limits.limit, limits.ceiling, sample) == Some(kept)
  {
    assert |sample| == |multiset(sample)| == |kept|;
    SizePermutation(sample, kept);
    forall c | c in sample ensures |c.rank| == RANK_SIZE {
      assert c in multiset(sample) && c in kept;
    }
    RestoreAny(limits.limit, limits.ceiling, sample);
    SortedIs(kept, sample);
  }
}
