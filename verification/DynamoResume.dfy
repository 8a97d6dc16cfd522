/** A DynamoDB capture that may be interrupted at any step and started again
    (captureData in internal/services/dynamodb/data.go). The work directory and the
    checkpoint survive; memory does not. A budget of steps says when the process
    is killed. */
module DynamoResume {
  import opened ByteStrings
  import opened Sorting
  import opened Lines
  import opened Sequences
  import opened AttributeCodec
  import opened Cohort
  import opened ExternalMerge
  import opened DynamoChunks
  import opened ProtectedState
  import opened GovernedState
  import opened DynamoCapture
  import opened DynamoContents
  import opened Wrappers

  /** checkpoint.json: the state itself, or where the protected state is. */
  datatype Checkpoint = Plain(state: ResumeState) | Protected(ref: StateRef)

  /** What the process holds between two pages, apart from the selection. */
  datatype Memory = Memory(cp: ResumeState, key: Item, lastItems: int, lastBytes: int)

  datatype Progress = Dead | Erred | Alive

  datatype Outcome = Crashed | Failed | Finished(result: DataResult)

  /** The state a checkpoint was written for, and how. */
  datatype Snapshot = Snapshot(state: State, nonce: nat -> Bytes, sample: seq<Candidate>)

  /** What the length fields of the record layout take for granted. */
  ghost predicate SmallRecords(cfg: Config) {
    cfg.options.governed ==>
      forall s, sample :: Reached(cfg, s) && multiset(sample) == multiset(s.kept) ==>
                            Addressable(cfg.vault, ResumeOf(cfg, s), sample)
  }

  ghost predicate Holds(cfg: Config, m: Memory, s: State) {
    && m.cp.(selectionCount := |s.kept|) == ResumeOf(cfg, s) && m.key == s.key
    && (cfg.options.governed ==> m.lastItems == s.savedItems && m.lastBytes == s.savedBytes)
  }

  /** A checkpoint on disk stands for a state the uninterrupted capture reaches. */
  ghost predicate Stored(cfg: Config, files: map<File, Bytes>, states: map<Bytes, Bytes>, c: Checkpoint, p: Snapshot) {
    && Reached(cfg, p.state) && multiset(p.sample) == multiset(p.state.kept)
    && HoldsRuns(files, PagePaths(|p.state.pageRows|), p.state.pageRows)
    && (if cfg.options.governed
        then && p.state.savedItems == p.state.scanned && p.state.savedBytes == p.state.sourceBytes
             && c == Protected(RefOf(cfg.vault, SavedFile(cfg, p)))
             && c.ref.digest in states && states[c.ref.digest] == SavedFile(cfg, p)
        else c == Plain(ResumeOf(cfg, p.state)))
  }

  ghost function SavedFile(cfg: Config, p: Snapshot): Bytes {
    FileOf(cfg.vault, p.nonce, ResumeOf(cfg, p.state), p.sample)
  }

  /** When a protected checkpoint is taken back. */
  ghost predicate Resumable(cfg: Config, p: Snapshot) {
    && Fits(cfg.vault, ResumeOf(cfg, p.state), p.sample)
    && !(p.state.complete && CursorText(cfg.documents, p.state.key) != [])
    && (cfg.options.cohort.Some? ==> Distinct(p.sample))
  }

  ghost predicate SelectionHolds(cfg: Config, selection: Selection?, kept: seq<Candidate>)
    reads selection
  {
    if selection == null then cfg.options.cohort.None? && kept == []
    else
      && cfg.options.cohort.Some? && selection.Valid() && selection.rankOf == cfg.source.rankOf
      && selection.limit == cfg.options.cohort.value.limit && selection.ceiling == cfg.options.cohort.value.ceiling
      && selection.Kept() == kept
  }

  /** The page loop of the uninterrupted capture comes to an error. */
  ghost predicate CaptureErrs(cfg: Config) {
    exists s :: Reached(cfg, s) && !s.complete && PageStep(cfg, s).None?
  }

  /** The final merge meets an overlong row or the output of an earlier merge. */
  ghost predicate MergeBlocked(cfg: Config, files: map<File, Bytes>) {
    exists s :: Reached(cfg, s) && s.complete && Unmergeable(files, s.pageRows)
  }

  /** The output of a merge of the finished capture is there. */
  ghost predicate Stuck(cfg: Config, files: map<File, Bytes>) {
    exists s :: Reached(cfg, s) && s.complete && Blocked(files, |s.pageRows|)
  }

  ghost predicate Unmergeable(files: map<File, Bytes>, pageRows: seq<seq<Bytes>>) {
    |pageRows| > 1 && !(AllShort(pageRows) && Outputs(|pageRows|, 0) !! files.Keys)
  }

  /** RestoreRuleCounts into an empty audit, then RuleCounts. */
  function RestoredCounts(counts: map<RuleId, int>): map<RuleId, int> {
    map id | id in counts && counts[id] > 0 :: counts[id]
  }

  const NewCheckpoint: ResumeState := ResumeState([], false, [], 0, 0, false, 0, 0, map[], 0, 0)

  // ------------------------------------------------------------- one page

  /** The retained candidates after one more offer, if it is accepted. */
  method Retain(cfg: Config, selection: Selection, ghost kept: seq<Candidate>, keyValues: seq<Bytes>, text: Bytes)
    returns (ok: bool, ghost next: seq<Candidate>)
    requires SelectionHolds(cfg, selection, kept)
    modifies selection
    ensures SelectionHolds(cfg, selection, next)
    ensures (if ok then Some(next) else None) ==
            Offer(cfg.options.cohort.value.limit, cfg.options.cohort.value.ceiling, kept,
                  Candidate(cfg.source.rankOf(keyValues), text))
  {
    ok := selection.OfferChecked(keyValues, text);
    next := selection.Kept();
  }

  method KeepText(cfg: Config, before: Work, keyValues: seq<Bytes>, text: Bytes, fired: seq<RuleId>,
                  selection: Selection?, ghost kept: seq<Candidate>)
    returns (ok: bool, w: Work, ghost next: seq<Candidate>)
    requires before.kept == [] && SelectionHolds(cfg, selection, kept)
    modifies selection
    ensures SelectionHolds(cfg, selection, next) && w.kept == []
    ensures (if ok then Some(w.(kept := next)) else None) == Keep(cfg, before.(kept := kept), keyValues, text, fired)
  {
    w, next := before, kept;
    if selection == null {
      return true, Tally(before, before.rows + [text], [], text, fired), next;
    }
    ok, next := Retain(cfg, selection, kept, keyValues, text);
    KeepOffered(cfg, before, kept, keyValues, text, fired, if ok then Some(next) else None);
    if ok {
      w := Tally(before, before.rows, [], text, fired);
    }
  }

  lemma KeepOffered(cfg: Config, before: Work, kept: seq<Candidate>, keyValues: seq<Bytes>, text: Bytes,
                    fired: seq<RuleId>, offered: Option<seq<Candidate>>)
    requires cfg.options.cohort.Some?
    requires offered == Offer(cfg.options.cohort.value.limit, cfg.options.cohort.value.ceiling, kept,
                              Candidate(cfg.source.rankOf(keyValues), text))
    ensures Keep(cfg, before.(kept := kept), keyValues, text, fired) ==
            if offered.None? then None else Some(Tally(before, before.rows, [], text, fired).(kept := offered.value))
  {
  }

  /** Governs one captured item and adds it to the page or to the sample. */
  method CaptureItem(cfg: Config, before: Work, keyValues: seq<Bytes>, item: Item, selection: Selection?,
                     ghost kept: seq<Candidate>)
    returns (ok: bool, w: Work, ghost next: seq<Candidate>)
    requires before.kept == [] && SelectionHolds(cfg, selection, kept)
    modifies selection
    ensures SelectionHolds(cfg, selection, next) && w.kept == []
    ensures (if ok then Some(w.(kept := next)) else None) == TakeItem(cfg, before.(kept := kept), keyValues, item)
  {
    w, next := before, kept;
    var governed, fired := item, [];
    if cfg.options.governed {
      var result := cfg.source.govern(item);
      if result.None? {
        return false, w, next;
      }
      governed, fired := result.value.0, result.value.1;
    }
    var text := CanonicalText(cfg.documents, governed);
    if text.None? {
      return false, w, next;
    }
    ok, w, next := KeepText(cfg, before, keyValues, text.value, fired, selection, kept);
  }

  /** Skips an item outside the cohort and captures every other one. */
  method CaptureIfEligible(cfg: Config, before: Work, item: Item, selection: Selection?, ghost kept: seq<Candidate>)
    returns (ok: bool, w: Work, ghost next: seq<Candidate>)
    requires before.kept == [] && SelectionHolds(cfg, selection, kept)
    modifies selection
    ensures SelectionHolds(cfg, selection, next) && w.kept == []
    ensures (if ok then Some(w.(kept := next)) else None) == TakeIfEligible(cfg, before.(kept := kept), item)
  {
    var keyValues: seq<Bytes> := [];
    if cfg.options.cohort.Some? {
      var eligible := cfg.source.eligible(item);
      if eligible.None? || eligible.value.None? {
        return eligible.Some?, before, kept;
      }
      keyValues := eligible.value.value;
    }
    ok, w, next := CaptureItem(cfg, before, keyValues, item, selection, kept);
  }

  method CaptureItems(cfg: Config, before: Work, items: seq<Item>, selection: Selection?, ghost kept: seq<Candidate>)
    returns (ok: bool, w: Work, ghost next: seq<Candidate>)
    requires before.kept == [] && SelectionHolds(cfg, selection, kept)
    modifies selection
    ensures SelectionHolds(cfg, selection, next) && w.kept == []
    ensures (if ok then Some(w.(kept := next)) else None) == TakeAll(cfg, before.(kept := kept), items)
  {
    w, next := before, kept;
    ghost var total := TakeAll(cfg, before.(kept := kept), items);
    for i := 0 to |items|
      invariant SelectionHolds(cfg, selection, next) && w.kept == []
      invariant TakeAll(cfg, w.(kept := next), items[i..]) == total
    {
      TakeAllStep(cfg, w, next, items, i, total);
      w := w.(scanned := w.scanned + 1);
      if cfg.options.Limited() && w.items >= cfg.options.maxItems {
        w := w.(truncated := true);
        return true, w, next;
      }
      ok, w, next := CaptureIfEligible(cfg, w, items[i], selection, next);
      if !ok {
        return;
      }
    }
    ok := true;
  }

  lemma TakeAllStep(cfg: Config, w: Work, kept: seq<Candidate>, items: seq<Item>, i: nat, total: Option<Work>)
    requires i < |items| && total == TakeAll(cfg, w.(kept := kept), items[i..])
    ensures var seen := w.(scanned := w.scanned + 1);
            if cfg.options.Limited() && w.items >= cfg.options.maxItems
            then total == Some(seen.(truncated := true).(kept := kept))
            else
              var taken := TakeIfEligible(cfg, seen.(kept := kept), items[i]);
              total == if taken.None? then None else TakeAll(cfg, taken.value, items[i + 1..])
  {
    assert items[i..][1..] == items[i + 1..];
  }

  // ------------------------------------------------------- proof of a page

  ghost predicate Assumed(cfg: Config) {
    Tame(cfg) && Sound(cfg.vault) && SmallRecords(cfg)
  }

  lemma StoredKept(cfg: Config, before: map<File, Bytes>, after: map<File, Bytes>, states: map<Bytes, Bytes>,
                   c: Checkpoint, p: Snapshot, page: nat)
    requires Stored(cfg, before, states, c, p) && |p.state.pageRows| < page && SameExcept(before, after, PageRun(page))
    ensures Stored(cfg, after, states, c, p)
  {
    KeepsRuns(before, after, PagePaths(|p.state.pageRows|), p.state.pageRows, PageRun(page));
  }

  lemma PagesKept(before: map<File, Bytes>, after: map<File, Bytes>, pageRows: seq<seq<Bytes>>)
    requires HoldsRuns(before, PagePaths(|pageRows|), pageRows) && SamePageFiles(before, after)
    ensures HoldsRuns(after, PagePaths(|pageRows|), pageRows)
  {
  }

  lemma OnePageMore(before: map<File, Bytes>, pageRows: seq<seq<Bytes>>, rows: seq<Bytes>)
    requires HoldsRuns(before, PagePaths(|pageRows|), pageRows) && IsRun(rows)
    ensures HoldsRuns(before[PageRun(|pageRows| + 1) := Text(rows)], PagePaths(|pageRows| + 1), pageRows + [rows])
  {
    var after, all := before[PageRun(|pageRows| + 1) := Text(rows)], pageRows + [rows];
    var paths := PagePaths(|pageRows| + 1);
    forall i | 0 <= i < |paths| ensures paths[i] in after && after[paths[i]] == Text(all[i]) && IsRun(all[i]) {
      if i < |pageRows| {
        assert paths[i] == PagePaths(|pageRows|)[i];
      }
    }
  }

  /** The checkpoint fields after a page, from those before it. */
  lemma PageFields(cfg: Config, s: State, page: Page, w: Work, runs: seq<RunRef>)
    requires runs == if cfg.options.cohort.Some? then RunRefs(cfg.vault, s.pageRows)
                     else RunRefs(cfg.vault, s.pageRows) +
                          [RunRef(PageRun(|s.pageRows| + 1), cfg.vault.hash(Text(Sort(Le, w.rows))),
                                  |Text(Sort(Le, w.rows))|)]
    ensures RunRefs(cfg.vault, EndPage(cfg, s, page, w).pageRows) == runs
  {
    var t := EndPage(cfg, s, page, w);
    if cfg.options.cohort.None? {
      assert |runs| == |t.pageRows|;
      forall k | 0 <= k < |runs| ensures RunRefs(cfg.vault, t.pageRows)[k] == runs[k] {
        if k < |s.pageRows| {
          assert RunRefs(cfg.vault, s.pageRows)[k] == runs[k] && t.pageRows[k] == s.pageRows[k];
        }
      }
    }
  }

  /** What a step of the page loop needs to know about the page it ends. */
  lemma PageEnds(cfg: Config, s: State, page: Page, w: Work)
    requires Assumed(cfg) && Reached(cfg, s) && !s.complete
    requires PageRequest(cfg, s) == Some(page) && TakeAll(cfg, Begin(s), page.items) == Some(w)
    ensures IsRun(Sort(Le, w.rows)) && |s.pageRows| == (if cfg.options.cohort.None? then s.pages else 0)
    ensures CanonicalText(cfg.documents, page.next).Some?
    ensures PageStep(cfg, s) == Some(EndPage(cfg, s, page, w)) && Reached(cfg, EndPage(cfg, s, page, w))
  {
    ReachedOk(cfg, s);
    TakeAllOk(cfg, Begin(s), page.items);
    TextIsDocument(cfg, w.rows);
    RequestGood(cfg, s);
    CursorRoundTrip(cfg.documents.go, page.next);
    ReachedNext(cfg, s);
  }

  lemma LoopGuard(cfg: Config, s: State)
    requires Assumed(cfg) && Reached(cfg, s)
    ensures s.complete <==>
            !(!s.complete
              && (!cfg.options.Limited() || (s.pages < cfg.options.maxPages && s.items < cfg.options.maxItems)))
    ensures !s.complete && s.pages > 0 ==> s.key != map[] && !s.truncated
  {
    ReachedOk(cfg, s);
  }

  // ------------------------------------------------------ proof of a resume

  /** A protected checkpoint is taken back exactly if it is resumable. */
  lemma LoadStored(cfg: Config, files: map<File, Bytes>, states: map<Bytes, Bytes>, c: Checkpoint, p: Snapshot)
    requires Assumed(cfg) && Stored(cfg, files, states, c, p) && cfg.options.governed
    ensures LoadAndValidate(cfg.vault, cfg.documents, cfg.policy, files, states[c.ref.digest], c.ref) ==
            if Resumable(cfg, p) then Some((ResumeOf(cfg, p.state), p.sample)) else None
  {
    ReachedOk(cfg, p.state);
    SavedIsWritten(cfg, files, p.state, p.sample);
    SaveLoadRoundTrip(cfg.vault, p.nonce, cfg.documents, cfg.policy, files, ResumeOf(cfg, p.state), p.sample);
  }

  lemma ResumesAt(cfg: Config, s: State)
    requires Assumed(cfg) && Reached(cfg, s)
    ensures CursorOf(cfg.documents, ResumeOf(cfg, s).lastKey) == Some(s.key)
    ensures RestoredCounts(s.counts) == s.counts
    ensures cfg.options.cohort.None? ==> s.kept == []
  {
    ReachedOk(cfg, s);
    CursorSurvives(cfg, s.key);
  }

  lemma SampleRestored(cfg: Config, s: State, sample: seq<Candidate>)
    requires Assumed(cfg) && Reached(cfg, s) && cfg.options.cohort.Some? && multiset(sample) == multiset(s.kept)
    ensures Restore(cfg.options.cohort.value.limit, cfg.options.cohort.value.ceiling, sample) == Some(s.kept)
  {
    ReachedOk(cfg, s);
    SampleSurvives(cfg.documents, cfg.options.cohort.value, s.items, s.kept, sample);
  }

  lemma NothingSaved(cfg: Config)
    ensures Reached(cfg, Initial)
    ensures NewCheckpoint == ResumeOf(cfg, Initial)
    ensures forall files :: HoldsRuns(files, PagePaths(|Initial.pageRows|), Initial.pageRows)
  {
    ReachedInitial(cfg);
    assert RunRefs(cfg.vault, []) == [];
  }

  // ----------------------------------------- captures that cannot be resumed

  /** A protected checkpoint of a reached state is taken back exactly if its records
      fit the reader, a finished scan has no cursor, and no retained candidate occurs
      twice. */
  lemma ResumableExactly(cfg: Config, p: Snapshot)
    requires Assumed(cfg) && Reached(cfg, p.state) && multiset(p.sample) == multiset(p.state.kept)
    ensures Resumable(cfg, p) <==>
            && Fits(cfg.vault, ResumeOf(cfg, p.state), p.sample)
            && !(p.state.complete && p.state.key != map[])
            && Distinct(p.state.kept)
  {
    ReachedOk(cfg, p.state);
    if Distinct(p.sample) {
      DistinctPermutation(p.sample, p.state.kept);
    }
    if Distinct(p.state.kept) {
      DistinctPermutation(p.state.kept, p.sample);
    }
    if p.state.key != map[] {
      CursorRoundTrip(cfg.documents.go, p.state.key);
      WrittenIsCanonical(cfg.documents, p.state.key);
    }
  }

  /** The checkpoint of a scan that was cut off with items left is never taken back. */
  lemma CutOffIsRefused(cfg: Config, p: Snapshot)
    requires Assumed(cfg) && Reached(cfg, p.state) && p.state.truncated && p.state.key != map[]
    ensures !Resumable(cfg, p)
  {
    ReachedOk(cfg, p.state);
    CursorRoundTrip(cfg.documents.go, p.state.key);
    WrittenIsCanonical(cfg.documents, p.state.key);
  }

  /** A governed capture whose first page reaches its limits writes such a checkpoint. */
  lemma FirstPageCutOff(cfg: Config, page: Page, w: Work) returns (t: State)
    requires Assumed(cfg) && cfg.options.governed && cfg.options.Limited()
    requires PageRequest(cfg, Initial) == Some(page) && TakeAll(cfg, Begin(Initial), page.items) == Some(w)
    requires page.next != map[] && (w.truncated || cfg.options.maxPages == 1 || w.items == cfg.options.maxItems)
    ensures PageStep(cfg, Initial) == Some(t) && Reached(cfg, t) && Due(Initial, 1, w, t.complete)
    ensures t.truncated && t.key == page.next && t.savedItems == t.scanned && t.savedBytes == t.sourceBytes
    ensures forall p: Snapshot | p.state == t :: !Resumable(cfg, p)
  {
    hide TakeAll;
    ReachedInitial(cfg);
    PageEnds(cfg, Initial, page, w);
    t := EndPage(cfg, Initial, page, w);
    forall p: Snapshot | p.state == t ensures !Resumable(cfg, p) {
      CutOffIsRefused(cfg, p);
    }
  }

  /** Two items that governing makes alike and that have the same keys. */
  ghost predicate Twins(cfg: Config, x: Item, y: Item, keyValues: seq<Bytes>, text: Bytes) {
    && cfg.source.eligible(x) == Some(Some(keyValues)) && cfg.source.eligible(y) == Some(Some(keyValues))
    && cfg.source.govern(x).Some? && CanonicalText(cfg.documents, cfg.source.govern(x).value.0) == Some(text)
    && cfg.source.govern(y).Some? && CanonicalText(cfg.documents, cfg.source.govern(y).value.0) == Some(text)
  }

  /** What the sample holds after two alike candidates. */
  lemma KeepsBoth(limits: CohortLimits, c: Candidate)
    requires limits.limit >= 2 && 2 * c.Size() <= limits.ceiling
    ensures Offer(limits.limit, limits.ceiling, [], c) == Some([c])
    ensures Offer(limits.limit, limits.ceiling, [c], c) == Some([c, c])
  {
    assert Insert(CandidateLe, [], c) == [c];
    assert [c][1..] == [] && [c, c][1..] == [c];
    assert Insert(CandidateLe, [c], c) == [c, c];
    assert TotalSize([c]) == c.Size() && TotalSize([c, c]) == 2 * c.Size();
  }

  /** A cohort capture whose first page consists of twins that fit writes a checkpoint
      that is never taken back. */
  lemma TwinsAreRefused(cfg: Config, page: Page, x: Item, y: Item, keyValues: seq<Bytes>, text: Bytes)
    returns (t: State)
    requires Assumed(cfg) && cfg.options.cohort.Some? && cfg.options.cohort.value.limit >= 2
    requires PageRequest(cfg, Initial) == Some(page) && page.items == [x, y] && Twins(cfg, x, y, keyValues, text)
    requires 2 * (RANK_SIZE + |text|) <= cfg.options.cohort.value.ceiling
    ensures PageStep(cfg, Initial) == Some(t) && Reached(cfg, t)
    ensures t.kept == [Candidate(cfg.source.rankOf(keyValues), text), Candidate(cfg.source.rankOf(keyValues), text)]
    ensures t.savedItems == t.scanned && t.savedBytes == t.sourceBytes
    ensures forall p: Snapshot | p.state == t && multiset(p.sample) == multiset(t.kept) :: !Resumable(cfg, p)
  {
    var c := Candidate(cfg.source.rankOf(keyValues), text);
    KeepsBoth(cfg.options.cohort.value, c);
    var w := TakeTwins(cfg, x, y, keyValues, text);
    ReachedInitial(cfg);
    PageEnds(cfg, Initial, page, w);
    t := EndPage(cfg, Initial, page, w);
    forall p: Snapshot | p.state == t && multiset(p.sample) == multiset(t.kept) ensures !Resumable(cfg, p) {
      assert t.kept[0] == t.kept[1];
      ResumableExactly(cfg, p);
    }
  }

  lemma TakeTwins(cfg: Config, x: Item, y: Item, keyValues: seq<Bytes>, text: Bytes) returns (w: Work)
    requires Tame(cfg) && cfg.options.cohort.Some? && Twins(cfg, x, y, keyValues, text)
    requires var c := Candidate(cfg.source.rankOf(keyValues), text);
             && Offer(cfg.options.cohort.value.limit, cfg.options.cohort.value.ceiling, [], c) == Some([c])
             && Offer(cfg.options.cohort.value.limit, cfg.options.cohort.value.ceiling, [c], c) == Some([c, c])
    ensures TakeAll(cfg, Begin(Initial), [x, y]) == Some(w)
    ensures w.kept == [Candidate(cfg.source.rankOf(keyValues), text), Candidate(cfg.source.rankOf(keyValues), text)]
  {
    hide Offer;
    assert [x, y][1..] == [y] && [y][1..] == [];
    var begin := Begin(Initial);
    var first := TakeIfEligible(cfg, begin.(scanned := 1), x).value;
    assert TakeAll(cfg, begin, [x, y]) == TakeAll(cfg, first, [y]);
    w := TakeIfEligible(cfg, first.(scanned := first.scanned + 1), y).value;
    assert TakeAll(cfg, first, [y]) == TakeAll(cfg, w, []);
  }

  // ------------------------------------------------------- proof of the end

  lemma {:induction false} ValuesPermutation(a: seq<Candidate>, b: seq<Candidate>)
    requires multiset(a) == multiset(b)
    ensures multiset(ValuesOf(a)) == multiset(ValuesOf(b))
  {
    if a == [] {
      assert |multiset(b)| == 0;
      assert ValuesOf(a) == ValuesOf(b);
    } else {
      var i := PermutationHead(a, b);
      ValuesPermutation(a[1..], Without(b, i));
      assert ValuesOf(a) == [a[0].value] + ValuesOf(a[1..]);
      assert ValuesOf(b) == ValuesOf(b[..i]) + [b[i].value] + ValuesOf(b[i + 1..]);
      assert ValuesOf(Without(b, i)) == ValuesOf(b[..i]) + ValuesOf(b[i + 1..]);
    }
  }

  /** Sorting the values of the heap sorts those of the sample. */
  lemma SampleValues(values: seq<Bytes>, items: seq<Candidate>, kept: seq<Candidate>)
    requires SortOf(Le, values, ValuesOf(items)) && multiset(items) == multiset(kept)
    ensures values == Sort(Le, ValuesOf(kept))
  {
    ValuesPermutation(items, kept);
    ByteOrder();
    SortCanonical(Le, values, ValuesOf(kept));
  }

  /** How many steps a page takes at most. */
  const STEPS_OF_A_PAGE: nat := 4

  /** The capture gets from the state s to its end in fewer steps than these. */
  ghost predicate Enough(cfg: Config, steps: nat, s: State) {
    exists f :: Reached(cfg, f) && f.complete && steps > STEPS_OF_A_PAGE * (f.pages - s.pages) + 2
  }

  /** With these steps the capture has come from the state s to the state t, and has not
      finished the next page. */
  ghost predicate Brought(cfg: Config, steps: nat, s: State, t: State) {
    Reached(cfg, t) && s.pages <= t.pages && steps <= STEPS_OF_A_PAGE * (t.pages - s.pages + 1)
  }

  /** No state lies behind the final one. */
  lemma PagesBelow(cfg: Config, t: State, f: State)
    requires Reached(cfg, t) && Reached(cfg, f) && f.complete
    ensures t.pages <= f.pages && (!t.complete ==> t.pages < f.pages)
  {
    hide Pages;
    var m: nat :| Pages(cfg, m) == Some(t);
    var n: nat :| Pages(cfg, n) == Some(f);
    if m <= n {
      PagesGrow(cfg, m, n);
    } else {
      CompleteStays(cfg, n, m);
    }
  }

  /** A capture that was killed did not have enough steps. */
  lemma KilledEarly(cfg: Config, steps: nat, s: State, t: State)
    requires Reached(cfg, t) && s.pages <= t.pages
    requires steps <= STEPS_OF_A_PAGE * (t.pages - s.pages) + if t.complete then 2 else STEPS_OF_A_PAGE
    ensures !Enough(cfg, steps, s)
  {
    forall f | Reached(cfg, f) && f.complete ensures steps <= STEPS_OF_A_PAGE * (f.pages - s.pages) + 2 {
      PagesBelow(cfg, t, f);
      if t.complete {
        FinalStateUnique(cfg, t, f);
      }
    }
  }

  lemma {:induction false} PagesGrow(cfg: Config, m: nat, n: nat)
    requires m <= n && Pages(cfg, m).Some? && Pages(cfg, n).Some?
    ensures Pages(cfg, m).value.pages <= Pages(cfg, n).value.pages
    ensures !Pages(cfg, m).value.complete && m < n ==> Pages(cfg, m).value.pages < Pages(cfg, n).value.pages
    decreases n
  {
    hide PageStep;
    if m < n {
      PagesGrow(cfg, m, n - 1);
      var s := Pages(cfg, n - 1).value;
      if !s.complete {
        StepGrows(cfg, s);
      }
    }
  }

  lemma StepGrows(cfg: Config, s: State)
    requires PageStep(cfg, s).Some?
    ensures PageStep(cfg, s).value.pages == s.pages + 1
  {
    hide TakeAll, Sort;
  }

  /** A checkpoint is only replaced by one that stands for more pages. */
  ghost predicate Onward(before: Option<Checkpoint>, p: Snapshot, after: Option<Checkpoint>, q: Snapshot) {
    before.Some? ==> after.Some? && p.state.pages <= q.state.pages
  }

  class Capture {
    const cfg: Config
    const dir: WorkDir
    var states: map<Bytes, Bytes>
    var checkpoint: Option<Checkpoint>
    /** How many more steps happen before the process is killed. */
    var power: nat
    /** The state the checkpoint stands for. */
    ghost var snapshot: Snapshot

    ghost predicate Valid()
      reads this, dir
    {
      Assumed(cfg) && (checkpoint.Some? ==> Stored(cfg, dir.files, states, checkpoint.value, snapshot))
    }

    /** The process stands between two pages, in the state s. */
    ghost predicate Running(m: Memory, selection: Selection?, s: State)
      reads this, dir, selection
    {
      && Reached(cfg, s) && Holds(cfg, m, s) && SelectionHolds(cfg, selection, s.kept) && OnDisk(s)
      && Recent(s)
    }

    /** The checkpoint is the last one that was due. */
    ghost predicate Recent(s: State)
      reads this
    {
      && (checkpoint.Some? ==> snapshot.state.pages <= s.pages)
      && (s.pages > 0 ==>
            && checkpoint.Some?
            && if cfg.options.governed
               then snapshot.state.scanned == s.savedItems && snapshot.state.sourceBytes == s.savedBytes
               else snapshot.state == s)
    }

    ghost predicate OnDisk(s: State)
      reads this, dir
    {
      && HoldsRuns(dir.files, PagePaths(|s.pageRows|), s.pageRows)
      && (checkpoint.Some? ==> |snapshot.state.pageRows| <= |s.pageRows|)
    }

    /** An empty work directory. */
    constructor (cfg: Config, dir: WorkDir)
      requires Assumed(cfg)
      ensures Valid() && checkpoint == None && this.cfg == cfg && this.dir == dir
    {
      this.cfg, this.dir := cfg, dir;
      states, checkpoint, power := map[], None, 0;
    }

    method Tick() returns (alive: bool)
      modifies this`power
      ensures if alive then power == old(power) - 1 else power == old(power) == 0
    {
      alive := power > 0;
      if alive {
        power := power - 1;
      }
    }

    // -------------------------------------------------------------- one page

    /** writeRun and sumRun. A crash leaves an arbitrary file under this name. */
    method WritePage(page: nat, rows: seq<Bytes>) returns (alive: bool, ref: RunRef)
      modifies this`power, dir
      ensures SameExcept(old(dir.files), dir.files, PageRun(page))
      ensures alive ==> dir.files == old(dir.files)[PageRun(page) := Text(rows)]
      ensures alive ==> ref == RunRef(PageRun(page), cfg.vault.hash(Text(rows)), |Text(rows)|)
      ensures power <= old(power) <= power + 1 && (!alive ==> power == 0)
    {
      ref := RunRef(PageRun(page), [], 0);
      alive := Tick();
      if !alive {
        var torn: Bytes := *;
        dir.files := dir.files[PageRun(page) := torn];
        return;
      }
      dir.WriteRun(PageRun(page), rows);
      var content := dir.files[PageRun(page)];
      ref := RunRef(PageRun(page), cfg.vault.hash(content), |content|);
    }

    /** Writes the rows of a page unless they went into the sample. */
    method WriteRows(runs: seq<RunRef>, pages: nat, rows: seq<Bytes>, ghost s: State, ghost page: Page, ghost w: Work)
      returns (alive: bool, next: seq<RunRef>)
      requires Valid() && OnDisk(s) && runs == RunRefs(cfg.vault, s.pageRows) && rows == w.rows
      requires IsRun(Sort(Le, rows)) && |s.pageRows| == (if cfg.options.cohort.None? then s.pages else 0)
               && pages == s.pages + 1
      modifies this`power, dir
      ensures Valid() && SameMergeFiles(old(dir.files), dir.files)
      ensures power <= old(power) <= power + 1 && (!alive ==> power == 0)
      ensures alive ==> OnDisk(EndPage(cfg, s, page, w))
      ensures alive ==> next == RunRefs(cfg.vault, EndPage(cfg, s, page, w).pageRows)
    {
      hide Assumed, Sort, Stored, HoldsRuns, IsRun;
      if cfg.options.cohort.Some? {
        return true, runs;
      }
      ghost var before := dir.files;
      var ref;
      alive, ref := WritePage(pages, Sort(Le, rows));
      if checkpoint.Some? {
        StoredKept(cfg, before, dir.files, states, checkpoint.value, snapshot, pages);
      }
      next := runs + [ref];
      if alive {
        OnePageMore(before, s.pageRows, Sort(Le, rows));
        PageFields(cfg, s, page, w, next);
      }
    }

    /** saveGovernedCheckpoint: the protected state first, then the checkpoint
        that refers to it. */
    method SaveProtected(cp: ResumeState, sample: seq<Candidate>, nonce: nat -> Bytes, ghost t: State)
      returns (alive: bool)
      requires Valid() && Reached(cfg, t) && OnDisk(t) && multiset(sample) == multiset(t.kept) && cfg.options.governed
      requires cp.(selectionCount := |t.kept|) == ResumeOf(cfg, t)
      requires t.savedItems == t.scanned && t.savedBytes == t.sourceBytes
      modifies this`power, this`states, this`checkpoint, this`snapshot
      ensures Valid() && OnDisk(t)
      ensures power <= old(power) <= power + 2 && (!alive ==> power == 0)
      ensures alive ==> checkpoint.Some? && snapshot.state == t
      ensures !alive ==> checkpoint == old(checkpoint) && snapshot == old(snapshot)
    {
      hide Tame, Sound, SmallRecords, HoldsRuns;
      SameLength(sample, t.kept);
      var state, file, ref := Save(cfg.vault, nonce, cp, sample);
      alive := Tick();
      if !alive {
        return;
      }
      StateFileAdded(cfg, dir.files, states, checkpoint, snapshot, file);
      states := states[ref.digest := file];
      alive := Tick();
      if alive {
        checkpoint, snapshot := Some(Protected(ref)), Snapshot(t, nonce, sample);
      }
    }

    method SaveCheckpoint(cp: ResumeState, selection: Selection?, nonce: nat -> Bytes, ghost t: State)
      returns (alive: bool)
      requires Valid() && Reached(cfg, t) && OnDisk(t) && SelectionHolds(cfg, selection, t.kept)
      requires cp.(selectionCount := |t.kept|) == ResumeOf(cfg, t)
      requires cfg.options.governed ==> t.savedItems == t.scanned && t.savedBytes == t.sourceBytes
      modifies this`power, this`states, this`checkpoint, this`snapshot
      ensures Valid() && OnDisk(t)
      ensures power <= old(power) <= power + 2 && (!alive ==> power == 0)
      ensures alive ==> checkpoint.Some? && snapshot.state == t
      ensures !alive ==> checkpoint == old(checkpoint) && snapshot == old(snapshot)
    {
      if cfg.options.governed {
        var sample := SampleOf(cfg, selection, t.kept);
        alive := SaveProtected(cp, sample, nonce, t);
      } else {
        alive := Tick();
        if alive {
          PlainHasNoSample(cfg, selection, t);
          checkpoint, snapshot := Some(Plain(cp.(selectionCount := 0))), Snapshot(t, _ => [], []);
        }
      }
    }

    /** The bookkeeping after the items of a page. */
    method EndOfPage(m: Memory, page: Page, w: Work, runs: seq<RunRef>, ghost s: State, ghost full: Work)
      returns (next: Memory, due: bool)
      requires Holds(cfg, m, s) && !s.complete && full == w.(kept := full.kept)
      requires runs == RunRefs(cfg.vault, EndPage(cfg, s, page, full).pageRows)
      ensures Holds(cfg, next, EndPage(cfg, s, page, full))
      ensures due <==> !cfg.options.governed || Due(s, s.pages + 1, full, EndPage(cfg, s, page, full).complete)
    {
      var pages := m.cp.pages + 1;
      var truncated := w.truncated
        || (cfg.options.Limited() && page.next != map[]
            && (pages == cfg.options.maxPages || w.items == cfg.options.maxItems));
      var complete := page.next == map[] || truncated;
      var cp := ResumeState(CursorText(cfg.documents, page.next), complete, runs, w.items, pages, truncated,
                            w.sourceBytes, m.cp.consumed + page.capacity, w.counts, m.cp.selectionCount, w.scanned);
      due := !cfg.options.governed || pages == 1 || cp.scannedItems - m.lastItems >= CHECKPOINT_ITEMS
        || cp.sourceBytes - m.lastBytes >= CHECKPOINT_BYTES || complete;
      next := Memory(cp, page.next, if due then cp.scannedItems else m.lastItems,
                     if due then cp.sourceBytes else m.lastBytes);
    }

    method RequestPage(m: Memory, ghost s: State) returns (page: Option<Page>)
      requires Holds(cfg, m, s)
      ensures page == PageRequest(cfg, s)
    {
      page := cfg.source.scan(m.key, if cfg.options.Limited() && m.cp.items <= cfg.options.maxItems
                                     then Some(cfg.options.maxItems - m.cp.items) else None);
    }

    /** Everything a page does before it touches the disk. */
    method ScanPage(m: Memory, page: Page, selection: Selection?, ghost s: State)
      returns (ok: bool, w: Work, ghost full: Work)
      requires Holds(cfg, m, s) && SelectionHolds(cfg, selection, s.kept)
      modifies selection
      ensures SelectionHolds(cfg, selection, full.kept) && full == w.(kept := full.kept)
      ensures (if ok then Some(full) else None) == TakeAll(cfg, Begin(s), page.items)
    {
      var before := Work([], [], m.cp.items, m.cp.truncated, m.cp.sourceBytes, m.cp.counts, m.cp.scannedItems);
      ghost var kept;
      ok, w, kept := CaptureItems(cfg, before, page.items, selection, s.kept);
      full := w.(kept := kept);
    }

    /** Everything a page does to the disk. */
    method CompletePage(m: Memory, page: Page, w: Work, selection: Selection?, nonce: nat -> Bytes, ghost s: State,
                        ghost full: Work)
      returns (alive: bool, next: Memory)
      requires Valid() && Reached(cfg, s) && !s.complete && Holds(cfg, m, s) && OnDisk(s) && Recent(s)
      requires full == w.(kept := full.kept) && SelectionHolds(cfg, selection, full.kept)
      requires PageRequest(cfg, s) == Some(page) && TakeAll(cfg, Begin(s), page.items) == Some(full)
      modifies this`power, this`states, this`checkpoint, this`snapshot, dir
      ensures Valid() && SameMergeFiles(old(dir.files), dir.files)
      ensures power <= old(power) <= power + 3 && (!alive ==> power == 0)
      ensures if alive then Recent(EndPage(cfg, s, page, full))
              else checkpoint == old(checkpoint) && snapshot == old(snapshot)
      ensures Onward(old(checkpoint), old(snapshot), checkpoint, snapshot)
      ensures PageStep(cfg, s) == Some(EndPage(cfg, s, page, full))
      ensures alive ==> Reached(cfg, EndPage(cfg, s, page, full)) && OnDisk(EndPage(cfg, s, page, full))
      ensures alive ==> Holds(cfg, next, EndPage(cfg, s, page, full))
    {
      hide Assumed, Stored, HoldsRuns, TakeAll, RunRefs;
      next := m;
      PageEnds(cfg, s, page, full);
      var runs;
      alive, runs := WriteRows(m.cp.runs, m.cp.pages + 1, w.rows, s, page, full);
      if !alive {
        return;
      }
      var due;
      next, due := EndOfPage(m, page, w, runs, s, full);
      if due {
        alive := SaveCheckpoint(next.cp, selection, nonce, EndPage(cfg, s, page, full));
      }
    }

    method CapturePage(m: Memory, selection: Selection?, nonce: nat -> Bytes, ghost s: State)
      returns (o: Progress, next: Memory, ghost t: State)
      requires Valid() && Running(m, selection, s) && !s.complete
      modifies this`power, this`states, this`checkpoint, this`snapshot, dir, selection
      ensures Valid() && SameMergeFiles(old(dir.files), dir.files)
      ensures power <= old(power) <= power + STEPS_OF_A_PAGE
      ensures o.Alive? ==> PageStep(cfg, s) == Some(t) && Running(next, selection, t) && power < old(power)
      ensures o.Erred? ==> PageStep(cfg, s).None?
      ensures o.Dead? ==> power == 0
      ensures !o.Alive? ==> checkpoint == old(checkpoint) && snapshot == old(snapshot)
      ensures Onward(old(checkpoint), old(snapshot), checkpoint, snapshot)
    {
      hide Assumed, Stored, HoldsRuns, TakeAll, Pages;
      next, t := m, s;
      var alive := Tick();
      if !alive {
        return Dead, next, t;
      }
      var page := RequestPage(m, s);
      if page.None? {
        return Erred, next, t;
      }
      var ok, w, full := ScanPage(m, page.value, selection, s);
      if !ok {
        return Erred, next, t;
      }
      alive, next := CompletePage(m, page.value, w, selection, nonce, s, full);
      t := EndPage(cfg, s, page.value, full);
      o := if alive then Alive else Dead;
    }

    // ----------------------------------------------------------- resuming

    /** loadGovernedState: reads and validates the protected state. */
    method LoadProtected(ref: StateRef) returns (loaded: Option<(ResumeState, seq<Candidate>)>)
      requires ref.digest in states
      ensures loaded == LoadAndValidate(cfg.vault, cfg.documents, cfg.policy, dir.files, states[ref.digest], ref)
    {
      loaded := LoadGovernedState(cfg.vault, states[ref.digest], ref);
      if loaded.Some? {
        var ok := ValidateGovernedState(cfg.vault, cfg.documents, cfg.policy, dir.files, loaded.value.0,
                                        loaded.value.1);
        if !ok {
          loaded := None;
        }
      }
    }

    /** The state that the checkpoint stands for, or the start of the table. */
    ghost function ResumePoint(): State
      reads this
    {
      if checkpoint.Some? then snapshot.state else Initial
    }

    /** Whether the checkpoint, if any, is taken back. */
    ghost predicate Accepted()
      reads this
    {
      checkpoint.Some? && cfg.options.governed ==> Resumable(cfg, snapshot)
    }

    /** loadCheckpoint, and loadGovernedState for a governed capture. */
    method LoadCheckpoint() returns (ok: bool, cp: ResumeState, sample: seq<Candidate>)
      requires Valid()
      ensures ok <==> Accepted()
      ensures ok ==> cp == ResumeOf(cfg, ResumePoint()) && multiset(sample) == multiset(ResumePoint().kept)
    {
      ok, cp, sample := true, NewCheckpoint, [];
      NothingSaved(cfg);
      if checkpoint.Some? {
        if checkpoint.value.Plain? {
          cp := checkpoint.value.state;
          RunsValid(cfg.vault, dir.files, snapshot.state.pageRows);
          ok := CheckRuns(cfg.vault, dir.files, cp.runs);
          ResumesAt(cfg, snapshot.state);
        } else {
          LoadStored(cfg, dir.files, states, checkpoint.value, snapshot);
          var loaded := LoadProtected(checkpoint.value.ref);
          ok := loaded.Some?;
          if ok {
            cp, sample := loaded.value.0, loaded.value.1;
          }
        }
      }
    }

    /** captureData up to the page loop. */
    method Load() returns (ok: bool, m: Memory, selection: Selection?)
      requires Valid()
      ensures ok <==> Accepted()
      ensures ok ==> Running(m, selection, ResumePoint())
      ensures selection != null ==> fresh(selection)
    {
      var cp, sample;
      ok, cp, sample := LoadCheckpoint();
      selection := null;
      m := Memory(cp, map[], cp.scannedItems, cp.sourceBytes);
      if ok {
        NothingSaved(cfg);
        ResumesAt(cfg, ResumePoint());
        var key := CursorOf(cfg.documents, cp.lastKey);
        ok := key.Some?;
        m := m.(cp := cp.(counts := RestoredCounts(cp.counts)), key := if ok then key.value else map[]);
        if ok && cfg.options.cohort.Some? {
          SampleRestored(cfg, ResumePoint(), sample);
          selection, ok := RestoreSelection(cfg.source.rankOf, cfg.options.cohort.value.limit,
                                            cfg.options.cohort.value.ceiling, sample);
        }
      }
    }

    // -------------------------------------------------------------- the end

    method WriteSample(selection: Selection, ghost s: State) returns (alive: bool)
      requires Valid() && SelectionHolds(cfg, selection, s.kept)
      modifies this`power, dir
      ensures Valid() && power <= old(power) <= power + 1 && (!alive ==> power == 0)
      ensures SameMergeFiles(old(dir.files), dir.files)
      ensures alive ==> CohortRun in dir.files && dir.files[CohortRun] == Text(Sort(Le, ValuesOf(s.kept)))
    {
      hide Assumed, Sort;
      var values := SortedValues(cfg, selection, s.kept);
      ghost var before := dir.files;
      alive := Tick();
      if alive {
        dir.WriteRun(CohortRun, values);
      } else {
        var torn: Bytes := *;
        dir.files := dir.files[CohortRun := torn];
      }
      if checkpoint.Some? {
        KeepsRuns(before, dir.files, PagePaths(|snapshot.state.pageRows|), snapshot.state.pageRows, CohortRun);
      }
    }

    /** mergeRuns on the page runs. A crash leaves any of its own files behind. */
    method MergePages(runs: seq<RunRef>, ghost s: State) returns (o: Progress, merged: File)
      requires Valid() && OnDisk(s) && runs == RunRefs(cfg.vault, s.pageRows)
      modifies this`power, dir
      ensures Valid() && power <= old(power) <= power + 1 && (o.Dead? ==> power == 0)
      ensures o.Alive? ==> merged in dir.files && dir.files[merged] == Text(Sort(Le, Flatten(s.pageRows)))
      ensures o.Erred? <==> !o.Dead? && Unmergeable(old(dir.files), s.pageRows)
      ensures Marked(old(dir.files), dir.files, |s.pageRows|)
    {
      hide Assumed, Sort;
      ghost var before := dir.files;
      var alive := Tick();
      var life: Option<nat> := None;
      if !alive {
        var groups: nat := *;
        life := Some(groups);
      }
      var paths := seq(|runs|, k requires 0 <= k < |runs| => runs[k].path);
      assert paths == PagePaths(|s.pageRows|);
      var end;
      end, merged := dir.MergeRuns(paths, life, s.pageRows);
      o := if !alive then Dead else if end.Merged? then Alive else Erred;
      if checkpoint.Some? {
        PagesKept(before, dir.files, snapshot.state.pageRows);
      }
    }

    /** captureData after the page loop. */
    method Finish(m: Memory, selection: Selection?, ghost s: State) returns (o: Outcome)
      requires Valid() && Running(m, selection, s)
      modifies this`power, dir
      ensures Valid() && power <= old(power) <= power + 2
      ensures o.Finished? ==> o.result == ResultOf(cfg, s)
      ensures o.Failed? ==> Unmergeable(old(dir.files), s.pageRows)
      ensures o.Crashed? ==> power == 0
      ensures Marked(old(dir.files), dir.files, |s.pageRows|)
      ensures Blocked(old(dir.files), |s.pageRows|) ==> !o.Finished?
    {
      hide Assumed, Stored, HoldsRuns, Sort, Unmergeable;
      BlockedMerge(cfg, old(dir.files), s);
      var merged := CohortRun;
      var truncated := m.cp.truncated;
      if selection != null {
        var alive := WriteSample(selection, s);
        if !alive {
          return Crashed;
        }
        truncated := m.cp.items > cfg.options.cohort.value.limit;
      } else {
        var progress;
        progress, merged := MergePages(m.cp.runs, s);
        if !progress.Alive? {
          return if progress.Dead? then Crashed else Failed;
        }
      }
      var alive := Tick();
      if !alive {
        return Crashed;
      }
      o := WriteResult(cfg, dir.files[merged], m, truncated, s);
    }

    /** The page loop. */
    method CaptureAll(m: Memory, selection: Selection?, nonce: nat -> Bytes, ghost s: State)
      returns (o: Progress, last: Memory, ghost t: State)
      requires Valid() && Running(m, selection, s)
      modifies this`power, this`states, this`checkpoint, this`snapshot, dir, selection
      ensures Valid() && SameMergeFiles(old(dir.files), dir.files) && power <= old(power)
      ensures o.Alive? ==> Running(last, selection, t) && t.complete
      ensures o.Erred? ==> CaptureErrs(cfg)
      ensures o.Dead? ==> power == 0 && !t.complete
      ensures Reached(cfg, t) && Recent(t) && s.pages <= t.pages
      ensures old(power) <= power + STEPS_OF_A_PAGE * (t.pages - s.pages + if o.Alive? then 0 else 1)
      ensures Onward(old(checkpoint), old(snapshot), checkpoint, snapshot)
    {
      hide Assumed, Stored, HoldsRuns, SelectionHolds;
      last, t := m, s;
      LoopGuard(cfg, t);
      while !last.cp.scanComplete
            && (!cfg.options.Limited()
                || (last.cp.pages < cfg.options.maxPages && last.cp.items < cfg.options.maxItems))
        invariant Valid() && Running(last, selection, t) && power <= old(power) && s.pages <= t.pages
        invariant old(power) <= power + STEPS_OF_A_PAGE * (t.pages - s.pages)
        invariant Onward(old(checkpoint), old(snapshot), checkpoint, snapshot)
        invariant !t.complete <==>
                  (!last.cp.scanComplete
                   && (!cfg.options.Limited()
                       || (last.cp.pages < cfg.options.maxPages && last.cp.items < cfg.options.maxItems)))
        invariant SameMergeFiles(old(dir.files), dir.files)
        decreases power
      {
        ghost var next;
        o, last, next := CapturePage(last, selection, nonce, t);
        if !o.Alive? {
          return;
        }
        t := next;
        LoopGuard(cfg, t);
        if last.key == map[] || last.cp.truncated {
          break;
        }
      }
      o := Alive;
    }

    /** captureData: one run of the process, from start to end, error or crash. Once a
        run has created an output of the merge, no run finishes in this directory. */
    method Attempt(nonce: nat -> Bytes) returns (o: Outcome)
      requires Valid()
      modifies this`power, this`states, this`checkpoint, this`snapshot, dir
      ensures Valid() && power <= old(power)
      ensures o.Finished? ==> FinishedAs(cfg, o.result)
      ensures o.Failed? ==> !old(Accepted()) || CaptureErrs(cfg) || MergeBlocked(cfg, old(dir.files))
      ensures o.Crashed? ==> power == 0 && !Enough(cfg, old(power), old(ResumePoint()))
      ensures Onward(old(checkpoint), old(snapshot), checkpoint, snapshot)
      ensures o.Crashed? ==> exists t :: Recent(t) && Brought(cfg, old(power), old(ResumePoint()), t)
      ensures SameMergeFiles(old(dir.files), dir.files) || Stuck(cfg, dir.files)
      ensures old(Stuck(cfg, dir.files)) ==> Stuck(cfg, dir.files) && !o.Finished?
    {
      hide Assumed, Stored, HoldsRuns, SelectionHolds, Unmergeable, SameMergeFiles, Marked, Blocked;
      SameMerges(cfg, dir.files, dir.files);
      var ok, m, selection := Load();
      if !ok {
        return Failed;
      }
      var progress, last, t := CaptureAll(m, selection, nonce, ResumePoint());
      SameMerges(cfg, old(dir.files), dir.files);
      if progress.Dead? {
        KilledEarly(cfg, old(power), old(ResumePoint()), t);
        assert Recent(t) && Brought(cfg, old(power), old(ResumePoint()), t);
      }
      if !progress.Alive? {
        return if progress.Dead? then Crashed else Failed;
      }
      SameBlock(old(dir.files), dir.files, t.pageRows);
      ghost var before := dir.files;
      o := Finish(last, selection, t);
      if o.Crashed? {
        KilledEarly(cfg, old(power), old(ResumePoint()), t);
        assert Recent(t) && Brought(cfg, old(power), old(ResumePoint()), t);
      }
      StuckEnds(cfg, old(dir.files), before, dir.files, t, o.Finished?);
      assert o.Failed? ==> Unmergeable(old(dir.files), t.pageRows);
      if o.Finished? {
        assert Reached(cfg, t) && t.complete && o.result == ResultOf(cfg, t);
      }
    }

    /** Any number of runs, each killed after any number of steps. */
    method Session(budgets: seq<nat>, nonce: (nat, nat) -> Bytes) returns (o: Outcome)
      requires Valid()
      modifies this, dir
      ensures Valid()
      ensures o.Finished? ==> FinishedAs(cfg, o.result)
      ensures budgets != [] && Enough(cfg, budgets[|budgets| - 1], Initial) ==> !o.Crashed?
      ensures Onward(old(checkpoint), old(snapshot), checkpoint, snapshot)
      ensures SameMergeFiles(old(dir.files), dir.files) || Stuck(cfg, dir.files)
      ensures old(Stuck(cfg, dir.files)) ==> Stuck(cfg, dir.files) && !o.Finished?
    {
      hide Stuck, SameMergeFiles;
      SameMerges(cfg, dir.files, dir.files);
      o := Crashed;
      for i := 0 to |budgets|
        invariant Valid() && !o.Finished?
        invariant i > 0 && Enough(cfg, budgets[i - 1], Initial) ==> !o.Crashed?
        invariant Onward(old(checkpoint), old(snapshot), checkpoint, snapshot)
        invariant SameMergeFiles(old(dir.files), dir.files) || Stuck(cfg, dir.files)
        invariant old(Stuck(cfg, dir.files)) ==> Stuck(cfg, dir.files)
      {
        ghost var before := dir.files;
        power := budgets[i];
        o := Attempt(k => nonce(i, k));
        MergesChain(old(dir.files), before, dir.files);
        if o.Finished? {
          return;
        }
      }
    }
  }

  /** The result of the uninterrupted capture. */
  ghost predicate FinishedAs(cfg: Config, result: DataResult) {
    exists s :: Reached(cfg, s) && s.complete && result == ResultOf(cfg, s)
  }

  /** Whatever interrupts two captures of the same table, and however often, their
      results agree. */
  lemma ResultsAgree(cfg: Config, a: DataResult, b: DataResult)
    requires FinishedAs(cfg, a) && FinishedAs(cfg, b)
    ensures a == b
  {
    var s :| Reached(cfg, s) && s.complete && a == ResultOf(cfg, s);
    var t :| Reached(cfg, t) && t.complete && b == ResultOf(cfg, t);
    FinalStateUnique(cfg, s, t);
  }

  /** However often it was interrupted, a finished capture has exactly what the pages it
      scanned contain: every item that belongs, governed, and nothing else. */
  lemma FinishedContents(cfg: Config, r: DataResult) returns (pages: seq<Page>)
    requires Assumed(cfg) && FinishedAs(cfg, r)
    ensures ResultHas(cfg, r, pages)
  {
    hide ResultHas;
    var s :| Reached(cfg, s) && s.complete && r == ResultOf(cfg, s);
    pages := FinishedHas(cfg, s);
  }

  lemma {:induction false} OutputsAreMerges(n: nat, pass: nat)
    ensures forall f | f in Outputs(n, pass) :: f.MergeRun?
    decreases n
  {
    if n > 1 {
      OutputsAreMerges(Groups(n), pass + 1);
    }
  }

  lemma SameBlock(before: map<File, Bytes>, after: map<File, Bytes>, pageRows: seq<seq<Bytes>>)
    requires SameMergeFiles(before, after)
    ensures Unmergeable(before, pageRows) <==> Unmergeable(after, pageRows)
  {
    OutputsAreMerges(|pageRows|, 0);
  }

  lemma MergesChain(a: map<File, Bytes>, b: map<File, Bytes>, c: map<File, Bytes>)
    ensures SameMergeFiles(a, b) && SameMergeFiles(b, c) ==> SameMergeFiles(a, c)
  {
  }

  lemma SameMerges(cfg: Config, before: map<File, Bytes>, after: map<File, Bytes>)
    ensures SameMergeFiles(before, before)
    ensures SameMergeFiles(before, after) ==> (Stuck(cfg, before) <==> Stuck(cfg, after))
  {
    if SameMergeFiles(before, after) {
      forall n: nat ensures Blocked(before, n) <==> Blocked(after, n) {
        OutputsAreMerges(n, 0);
      }
    }
  }

  /** An output of the merge keeps the capture from finishing. */
  lemma InterruptedMergeBlocks(cfg: Config, files: map<File, Bytes>, s: State)
    requires Stuck(cfg, files) && Reached(cfg, s) && s.complete
    ensures Blocked(files, |s.pageRows|) && Unmergeable(files, s.pageRows)
  {
    var t :| Reached(cfg, t) && t.complete && Blocked(files, |t.pageRows|);
    FinalStateUnique(cfg, s, t);
    var f :| f in Outputs(|s.pageRows|, 0) && f in files;
    assert f in files.Keys;
  }

  lemma BlockedMerge(cfg: Config, files: map<File, Bytes>, s: State)
    requires Assumed(cfg) && Reached(cfg, s)
    ensures Blocked(files, |s.pageRows|) ==> cfg.options.cohort.None? && Unmergeable(files, s.pageRows)
  {
    ReachedOk(cfg, s);
    if Blocked(files, |s.pageRows|) {
      var f :| f in Outputs(|s.pageRows|, 0) && f in files;
      assert f in files.Keys;
    }
  }

  lemma StuckEnds(cfg: Config, initial: map<File, Bytes>, before: map<File, Bytes>, after: map<File, Bytes>, t: State,
                  finished: bool)
    requires SameMergeFiles(initial, before) && Marked(before, after, |t.pageRows|) && Reached(cfg, t) && t.complete
    requires Blocked(before, |t.pageRows|) ==> !finished
    ensures SameMergeFiles(initial, after) || Stuck(cfg, after)
    ensures Stuck(cfg, initial) ==> Stuck(cfg, after) && !finished
  {
    SameMerges(cfg, initial, before);
    SameMerges(cfg, before, after);
    if Stuck(cfg, initial) {
      InterruptedMergeBlocks(cfg, before, t);
    }
  }

  /** writeDynamoChunks on the merged rows, and the rest of the result. */
  method WriteResult(cfg: Config, merged: Bytes, m: Memory, truncated: bool, ghost s: State) returns (o: Outcome)
    requires Holds(cfg, m, s) && merged == Text(FinalRows(cfg, s))
    requires truncated == if cfg.options.cohort.None? then s.truncated else s.items > cfg.options.cohort.value.limit
    ensures o == Finished(ResultOf(cfg, s))
  {
    var dataset := WriteChunks(merged);
    o := Finished(DataResult(dataset, m.cp.items, m.cp.pages, truncated, m.cp.consumed, m.cp.counts));
  }

  method SortedValues(cfg: Config, selection: Selection, ghost kept: seq<Candidate>) returns (values: seq<Bytes>)
    requires SelectionHolds(cfg, selection, kept)
    ensures values == Sort(Le, ValuesOf(kept))
  {
    values := selection.Values();
    SortMultiset(CandidateLe, selection.items);
    SampleValues(values, selection.items, kept);
  }

  method SampleOf(cfg: Config, selection: Selection?, ghost kept: seq<Candidate>) returns (sample: seq<Candidate>)
    requires SelectionHolds(cfg, selection, kept)
    ensures multiset(sample) == multiset(kept)
  {
    if selection == null {
      return [];
    }
    sample := selection.Visit();
  }

  lemma PlainHasNoSample(cfg: Config, selection: Selection?, t: State)
    requires Assumed(cfg) && !cfg.options.governed && SelectionHolds(cfg, selection, t.kept)
    ensures t.kept == []
  {
  }

  /** State files are named by their digest, so an older one is never replaced. */
  lemma StateFileAdded(cfg: Config, files: map<File, Bytes>, states: map<Bytes, Bytes>, c: Option<Checkpoint>,
                       p: Snapshot, file: Bytes)
    requires Assumed(cfg) && (c.Some? ==> Stored(cfg, files, states, c.value, p))
    ensures c.Some? ==> Stored(cfg, files, states[cfg.vault.hash(file) := file], c.value, p)
  {
    assert Sound(cfg.vault);
    if c.Some? && cfg.options.governed {
      assert cfg.vault.hash(file) == cfg.vault.hash(SavedFile(cfg, p)) ==> file == SavedFile(cfg, p);
    }
  }
}
