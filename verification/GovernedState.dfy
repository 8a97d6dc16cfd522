/** What loadGovernedState accepts after decryption (validateGovernedState and
    validateCohortCheckpoint), against what a capture writes. */
module GovernedState {
  import opened ByteStrings
  import opened AttributeCodec
  import opened Cohort
  import opened ExternalMerge
  import opened ProtectedState
  import opened Wrappers

  /** JSON text of documents; parsing undoes printing. */
  datatype Documents = Documents(go: Go, text: Json -> Bytes, parse: Bytes -> Option<Json>)

  ghost predicate Readable(d: Documents) {
    Lawful(d.go) && forall j :: d.parse(d.text(j)) == Some(j) && d.text(j) != []
  }

  /** The part of the policy that concerns one table. */
  datatype Policy = Policy(rules: set<RuleId>, cohort: Option<CohortLimits>)

  datatype CohortLimits = CohortLimits(limit: nat, ceiling: int)

  /** CanonicalItem: the text of a document. */
  function CanonicalText(d: Documents, item: Item): Option<Bytes> {
    var j := EncodeItem(d.go, item);
    if j.Some? then Some(d.text(j.value)) else None
  }

  /** decodeKey. */
  function ParseItem(d: Documents, text: Bytes): Option<Item> {
    var j := d.parse(text);
    if j.Some? then DecodeItem(d.go, j.value) else None
  }

  /** Decoding and encoding again reproduces the text. */
  predicate IsCanonical(d: Documents, text: Bytes) {
    var item := ParseItem(d, text);
    item.Some? && CanonicalText(d, item.value) == Some(text)
  }

  /** Whatever the encoder wrote passes the canonical-form check. */
  lemma WrittenIsCanonical(d: Documents, item: Item)
    requires Readable(d) && CanonicalText(d, item).Some?
    ensures IsCanonical(d, CanonicalText(d, item).value) && CanonicalText(d, item).value != []
    ensures ParseItem(d, CanonicalText(d, item).value) == Some(CanonicalItem(d.go, item))
  {
    CanonicalCheckAccepts(d.go, item);
  }

  // ------------------------------------------------------------- validation

  predicate ValidCounters(s: ResumeState, sample: seq<Candidate>) {
    && 0 <= s.items <= s.scannedItems && 0 <= s.pages && 0 <= s.sourceBytes && 0 <= s.consumed
    && s.selectionCount == |sample|
  }

  predicate ValidCursor(d: Documents, s: ResumeState) {
    && (s.lastKey != [] ==> IsCanonical(d, s.lastKey))
    && !(s.scanComplete && s.lastKey != [])
    && !(s.truncated && !s.scanComplete)
  }

  predicate ValidSample(d: Documents, p: Policy, s: ResumeState, sample: seq<Candidate>) {
    if p.cohort.None? then sample == []
    else
      && |sample| <= p.cohort.value.limit && |sample| <= s.items
      && (forall c | c in sample :: GoodCandidate(d, c))
      && TotalSize(sample) <= p.cohort.value.ceiling
      && s.runs == [] && |sample| == (if s.items < p.cohort.value.limit then s.items else p.cohort.value.limit)
      && Distinct(sample)
  }

  predicate GoodCandidate(d: Documents, c: Candidate) {
    |c.rank| == RANK_SIZE && IsCanonical(d, c.value)
  }

  predicate Distinct(sample: seq<Candidate>) {
    forall i, j | 0 <= i < j < |sample| :: sample[i] != sample[j]
  }

  lemma {:induction false} DistinctCount(sample: seq<Candidate>, c: Candidate)
    requires Distinct(sample)
    ensures multiset(sample)[c] <= 1
  {
    if sample != [] {
      var head, tail := sample[0], sample[1..];
      assert sample == [head] + tail;
      DistinctCount(tail, c);
      if c == head {
        assert c !in tail;
        assert c !in multiset(tail);
      }
    }
  }

  lemma RepeatedCount(sample: seq<Candidate>, j: nat, k: nat)
    requires j < k < |sample| && sample[j] == sample[k]
    ensures multiset(sample)[sample[j]] >= 2
  {
    var front, back := sample[..k], sample[k..];
    assert sample == front + back;
    assert front[j] in multiset(front) && back[0] in multiset(back);
  }

  /** Whether a candidate occurs twice does not depend on the order. */
  lemma DistinctPermutation(a: seq<Candidate>, b: seq<Candidate>)
    requires multiset(a) == multiset(b) && Distinct(a)
    ensures Distinct(b)
  {
    forall j, k | 0 <= j < k < |b| ensures b[j] != b[k] {
      if b[j] == b[k] {
        RepeatedCount(b, j, k);
        DistinctCount(a, b[j]);
      }
    }
  }

  predicate ValidRuns(v: Vault, files: map<File, Bytes>, runs: seq<RunRef>) {
    forall r | r in runs :: r.path in files && |files[r.path]| == r.size && v.hash(files[r.path]) == r.digest
  }

  predicate ValidCounts(p: Policy, s: ResumeState) {
    forall id | id in s.counts :: id in p.rules && s.counts[id] >= 0
  }

  predicate ValidState(v: Vault, d: Documents, p: Policy, files: map<File, Bytes>, s: ResumeState,
                       sample: seq<Candidate>) {
    && ValidCounters(s, sample) && ValidCursor(d, s) && ValidSample(d, p, s, sample)
    && ValidCounts(p, s) && ValidRuns(v, files, s.runs)
  }

  /** The key under which the validator remembers a candidate. */
  function Fingerprint(c: Candidate): Bytes {
    c.rank + [0] + c.value
  }

  lemma FingerprintInjective(a: Candidate, b: Candidate)
    requires |a.rank| == |b.rank|
    ensures Fingerprint(a) == Fingerprint(b) <==> a == b
  {
    if Fingerprint(a) == Fingerprint(b) {
      assert a.rank == Fingerprint(a)[..|a.rank|] == b.rank;
      assert a.value == Fingerprint(a)[|a.rank| + 1..] == b.value;
    }
  }

  /** validateGovernedState, in the order of the source. */
  method ValidateGovernedState(v: Vault, d: Documents, p: Policy, files: map<File, Bytes>,
                               s: ResumeState, sample: seq<Candidate>) returns (ok: bool)
    ensures ok <==> ValidState(v, d, p, files, s, sample)
  {
    if s.items < 0 || s.scannedItems < s.items || s.pages < 0 || s.sourceBytes < 0 || s.consumed < 0
       || s.selectionCount != |sample| {
      return false;
    }
    if s.lastKey != [] && !IsCanonical(d, s.lastKey) {
      return false;
    }
    if s.scanComplete && s.lastKey != [] {
      return false;
    }
    if s.truncated && !s.scanComplete {
      return false;
    }
    ok := ValidateCohortCheckpoint(d, p, s, sample);
    if !ok {
      return false;
    }
    if exists id | id in s.counts :: id !in p.rules || s.counts[id] < 0 {
      return false;
    }
    if p.cohort.Some? {
      if s.runs != [] || |sample| != (if s.items < p.cohort.value.limit then s.items else p.cohort.value.limit) {
        return false;
      }
      ok := NoDuplicates(sample);
      if !ok {
        return false;
      }
    } else if sample != [] {
      return false;
    }
    ok := CheckRuns(v, files, s.runs);
  }

  /** Every run a checkpoint refers to must be there, byte for byte. */
  method CheckRuns(v: Vault, files: map<File, Bytes>, runs: seq<RunRef>) returns (ok: bool)
    ensures ok <==> ValidRuns(v, files, runs)
  {
    for i := 0 to |runs|
      invariant forall k | 0 <= k < i :: var r := runs[k];
                  r.path in files && |files[r.path]| == r.size && v.hash(files[r.path]) == r.digest
    {
      var r := runs[i];
      if r.path !in files || v.hash(files[r.path]) != r.digest || |files[r.path]| != r.size {
        assert r in runs;
        return false;
      }
    }
    ok := true;
  }

  method ValidateCohortCheckpoint(d: Documents, p: Policy, s: ResumeState, sample: seq<Candidate>) returns (ok: bool)
    requires 0 <= s.items
    ensures ok <==> if p.cohort.None? then sample == []
                    else && |sample| <= p.cohort.value.limit && |sample| <= s.items
                         && (forall c | c in sample :: GoodCandidate(d, c))
                         && TotalSize(sample) <= p.cohort.value.ceiling
  {
    if p.cohort.None? {
      return sample == [];
    }
    if |sample| > p.cohort.value.limit || s.items < |sample| {
      return false;
    }
    var retained := 0;
    for i := 0 to |sample|
      invariant retained + TotalSize(sample[i..]) == TotalSize(sample)
      invariant forall k | 0 <= k < i :: GoodCandidate(d, sample[k])
    {
      retained := retained + sample[i].Size();
      if !GoodCandidate(d, sample[i]) {
        assert sample[i] in sample;
        return false;
      }
    }
    ok := retained <= p.cohort.value.ceiling;
  }

  method NoDuplicates(sample: seq<Candidate>) returns (ok: bool)
    requires forall c | c in sample :: |c.rank| == RANK_SIZE
    ensures ok <==> Distinct(sample)
  {
    var seen: set<Bytes> := {};
    for i := 0 to |sample|
      invariant seen == set k | 0 <= k < i :: Fingerprint(sample[k])
      invariant forall j, k | 0 <= j < k < i :: sample[j] != sample[k]
    {
      assert sample[i] in sample;
      forall k | 0 <= k < i ensures Fingerprint(sample[k]) == Fingerprint(sample[i]) <==> sample[k] == sample[i] {
        assert sample[k] in sample;
        FingerprintInjective(sample[k], sample[i]);
      }
      if Fingerprint(sample[i]) in seen {
        return false;
      }
      seen := seen + {Fingerprint(sample[i])};
    }
    ok := true;
  }

  // ------------------------------------------------- what a capture writes

  /** Everything a capture guarantees of the state it saves. Neither an absent
      cursor of a complete scan nor distinct candidates is among it. */
  ghost predicate Written(v: Vault, d: Documents, p: Policy, files: map<File, Bytes>, s: ResumeState,
                          sample: seq<Candidate>) {
    && ValidCounters(s, sample) && ValidCounts(p, s) && ValidRuns(v, files, s.runs)
    && (s.lastKey == [] || exists key :: CanonicalText(d, key) == Some(s.lastKey))
    && (s.truncated ==> s.scanComplete)
    && (if p.cohort.None? then sample == []
        else && s.runs == [] && |sample| == (if s.items < p.cohort.value.limit then s.items else p.cohort.value.limit)
             && (forall c | c in sample :: |c.rank| == RANK_SIZE
                                           && exists item :: CanonicalText(d, item) == Some(c.value))
             && TotalSize(sample) <= p.cohort.value.ceiling)
  }

  /** A state is accepted on resume exactly if it has the shape that a capture writes,
      no finished scan has kept its cursor (a scan cut off at its limits does), and no two
      retained candidates are identical. DynamoResume has captures that reach both of
      these shapes. */
  lemma RefusedShapes(v: Vault, d: Documents, p: Policy, files: map<File, Bytes>, s: ResumeState,
                      sample: seq<Candidate>)
    requires Readable(d)
    ensures ValidState(v, d, p, files, s, sample) <==>
            && Written(v, d, p, files, s, sample) && !(s.scanComplete && s.lastKey != [])
            && (p.cohort.Some? ==> Distinct(sample))
  {
    CanonicalIsWritten(d, s.lastKey);
    forall c | c in sample ensures IsCanonical(d, c.value) <==> exists item :: CanonicalText(d, item) == Some(c.value) {
      CanonicalIsWritten(d, c.value);
    }
  }

  /** The texts in canonical form are those that the encoder writes. */
  lemma CanonicalIsWritten(d: Documents, text: Bytes)
    requires Readable(d)
    ensures IsCanonical(d, text) <==> exists item :: CanonicalText(d, item) == Some(text)
  {
    if item :| CanonicalText(d, item) == Some(text) {
      WrittenIsCanonical(d, item);
    }
    if IsCanonical(d, text) {
      assert CanonicalText(d, ParseItem(d, text).value) == Some(text);
    }
  }

  /** loadGovernedState as a whole. */
  function LoadAndValidate(v: Vault, d: Documents, p: Policy, files: map<File, Bytes>, file: Bytes, ref: StateRef)
    : Option<(ResumeState, seq<Candidate>)>
  {
    var loaded := LoadState(v, file, ref);
    if loaded.Some? && ValidState(v, d, p, files, loaded.value.0, loaded.value.1) then loaded else None
  }

  /** Saving and loading gives state and sample back exactly when the records fit
      the reader, a finished scan has no cursor, and no candidate occurs twice. */
  lemma SaveLoadRoundTrip(v: Vault, nonce: nat -> Bytes, d: Documents, p: Policy, files: map<File, Bytes>,
                          s: ResumeState, sample: seq<Candidate>)
    requires Sound(v) && Readable(d) && Written(v, d, p, files, s, sample) && Addressable(v, s, sample)
    ensures var file := FileOf(v, nonce, s, sample);
            LoadAndValidate(v, d, p, files, file, RefOf(v, file)) ==
            if Fits(v, s, sample) && !(s.scanComplete && s.lastKey != []) && (p.cohort.Some? ==> Distinct(sample))
            then Some((s, sample)) else None
  {
    LoadSaved(v, nonce, s, sample);
    RefusedShapes(v, d, p, files, s, sample);
  }
}
