/** The order of the lists in a manifest does not show in its projection. */
module ProjectionOrder {
  import opened ByteStrings
  import opened Identities
  import opened Mapping
  import opened Prefixes
  import Comparison
  import opened Projections
  import opened ManifestProjection
  import opened Sorting
  import opened Wrappers

  // ------------------------------------------- manifests read without order

  datatype OperationContent = OperationContent(id: Bytes, stage: Bytes, service: Bytes, resourceId: Bytes,
                                               action: Bytes, dependsOn: multiset<Bytes>)

  /** An artifact, wherever it is. */
  datatype ArtifactContent = ArtifactContent(digest: Bytes, size: nat, media: Bytes)

  datatype ChunkContent = ChunkContent(data: ArtifactContent, index: Option<ArtifactContent>, records: nat,
                                       sourceBytes: nat)

  datatype DataContent = NoContent
    | DatasetContent(format: Bytes, records: nat, sourceBytes: nat, consistency: Bytes, chunks: multiset<ChunkContent>)
    | LegacyContent(artifacts: multiset<ArtifactContent>)

  datatype GovernanceContent = GovernanceContent(profile: Bytes, policyIdentity: Bytes, cohortIdentity: Bytes,
                                                 keyIds: multiset<Bytes>, algorithms: multiset<Bytes>,
                                                 rules: multiset<RuleSummary>, cohorts: multiset<CohortSummary>)

  ghost function OperationContentOf(o: Operation): OperationContent {
    OperationContent(o.id, o.stage, o.service, o.resourceId, o.action, multiset(o.dependsOn))
  }

  function ArtifactContentOf(a: Artifact): ArtifactContent {
    ArtifactContent(a.digest, a.size, a.media)
  }

  function ChunkContentOf(c: Chunk): ChunkContent {
    ChunkContent(ArtifactContentOf(c.data), if c.index.None? then None else Some(ArtifactContentOf(c.index.value)),
                 c.records, c.sourceBytes)
  }

  ghost function DataContentOf(d: Data): DataContent {
    match d
    case NoData => NoContent
    case Dataset(format, records, sourceBytes, consistency, chunks) =>
      DatasetContent(format, records, sourceBytes, consistency, multiset(Map(ChunkContentOf, chunks)))
    case Legacy(artifacts) => LegacyContent(multiset(Map(ArtifactContentOf, artifacts)))
  }

  /** The same resource with the same content: only the order of lists, the paths of
      artifacts and the way the structure is written may differ. */
  ghost predicate SameSnapshot(t: Text, s: Snapshot, u: Snapshot) {
    && s.identity == u.identity && t.canonical(s.structure) == t.canonical(u.structure)
    && DataContentOf(s.data) == DataContentOf(u.data) && multiset(s.findings) == multiset(u.findings)
  }

  ghost function GovernanceContentOf(g: Governance): GovernanceContent {
    GovernanceContent(g.profile, g.policyIdentity, g.cohortIdentity, multiset(g.keyIds), multiset(g.algorithms),
                      multiset(g.rules), multiset(g.cohorts))
  }

  /** Every snapshot of one manifest has a counterpart in the other. */
  ghost predicate Covers(t: Text, m: Manifest, n: Manifest) {
    forall s | s in m.snapshots :: exists u :: u in n.snapshots && SameSnapshot(t, s, u)
  }

  ghost predicate Matched(t: Text, m: Manifest, n: Manifest) {
    (forall id :: id in m.selected <==> id in n.selected) && Covers(t, m, n) && Covers(t, n, m)
  }

  /** The manifests differ in the order of their lists only, at every level, and in what
      snapshots may differ in. */
  ghost predicate SameContent(t: Text, m: Manifest, n: Manifest) {
    && m.source == n.source && m.target == n.target && Matched(t, m, n)
    && multiset(Map(OperationContentOf, m.operations)) == multiset(Map(OperationContentOf, n.operations))
    && multiset(m.findings) == multiset(n.findings) && SameGovernance(m.governance, n.governance)
  }

  ghost predicate SameGovernance(g: Option<Governance>, h: Option<Governance>) {
    if g.None? || h.None? then g == h else GovernanceContentOf(g.value) == GovernanceContentOf(h.value)
  }

  // ------------------------------------------------------------ names without NUL

  predicate TidyFinding(f: Finding) { NoNul(FindingFields(f)) }

  /** No NUL, and no dependency without a name. */
  predicate TidyOperation(o: Operation) {
    NoNul([o.id, o.stage, o.service, o.resourceId, o.action]) && NoNul(o.dependsOn) && [] !in o.dependsOn
  }

  predicate TidyArtifact(a: Artifact) { NUL !in a.digest && NUL !in a.media }

  predicate TidyChunk(c: Chunk) { TidyArtifact(c.data) && (c.index.Some? ==> TidyArtifact(c.index.value)) }

  predicate TidyData(d: Data) {
    match d
    case NoData => true
    case Dataset(_, _, _, _, chunks) => forall c | c in chunks :: TidyChunk(c)
    case Legacy(artifacts) => forall a | a in artifacts :: TidyArtifact(a)
  }

  predicate TidySnapshot(s: Snapshot) {
    Plain(s.identity) && TidyData(s.data) && forall f | f in s.findings :: TidyFinding(f)
  }

  /** Manifest.Validate has rejected repeated rule IDs and cohorts. */
  predicate TidyGovernance(g: Governance) {
    && (forall r | r in g.rules :: NoNul(RuleFields(r)))
    && (forall r, q | r in g.rules && q in g.rules && r.id == q.id :: r == q)
    && (forall c, d | c in g.cohorts && d in g.cohorts && c.resource == d.resource :: c == d)
  }

  predicate Tidy(m: Manifest) {
    && (forall id | id in m.selected :: Plain(id)) && (forall s | s in m.snapshots :: TidySnapshot(s))
    && (forall o | o in m.operations :: TidyOperation(o)) && (forall f | f in m.findings :: TidyFinding(f))
    && (m.governance.Some? ==> TidyGovernance(m.governance.value))
  }

  // ---------------------------------------------------------- sorts without ties

  /** Equal keys mean equal elements. */
  ghost predicate KeyTells<T>(key: T -> Bytes, s: seq<T>) {
    forall x, y | x in s && y in s && key(x) == key(y) :: x == y
  }

  lemma OneSort<T(!new)>(key: T -> Bytes, r: seq<T>, a: seq<T>, t: seq<T>, b: seq<T>)
    requires SortOf(ByKey(key), r, a) && SortOf(ByKey(key), t, b) && multiset(a) == multiset(b) && KeyTells(key, a)
    ensures r == t
  {
    forall x, y | x in r && y in r && ByKey(key)(x, y) && ByKey(key)(y, x) ensures x == y {
      LeAntisymmetric(key(x), key(y));
      assert x in multiset(r) && y in multiset(r);
      assert x in multiset(a) && y in multiset(a);
    }
    SortedUnique(ByKey(key), r, t);
  }

  /** sort.Slice is not stable: it gives one arrangement exactly if the keys tell the
      elements apart. */
  lemma OneArrangement<T(!new)>(key: T -> Bytes, s: seq<T>)
    ensures (forall r, t | SortOf(ByKey(key), r, s) && SortOf(ByKey(key), t, s) :: r == t) <==> KeyTells(key, s)
  {
    if KeyTells(key, s) {
      forall r, t | SortOf(ByKey(key), r, s) && SortOf(ByKey(key), t, s) ensures r == t {
        OneSort(key, r, s, t, s);
      }
    } else {
      var x, y :| x in s && y in s && key(x) == key(y) && x != y;
      KeyOrder(key);
      SortSorts(ByKey(key), s);
      var r := Sort(ByKey(key), s);
      var t := Exchanged(key, r, s, x, y);
    }
  }

  /** Exchanging two elements with the same key keeps a list sorted. */
  lemma Exchanged<T>(key: T -> Bytes, r: seq<T>, s: seq<T>, x: T, y: T) returns (t: seq<T>)
    requires SortOf(ByKey(key), r, s) && x in s && y in s && key(x) == key(y) && x != y
    ensures SortOf(ByKey(key), t, s) && t != r
  {
    assert x in multiset(s) && y in multiset(s) && x in multiset(r) && y in multiset(r);
    var i :| 0 <= i < |r| && r[i] == x;
    var j :| 0 <= j < |r| && r[j] == y;
    t := r[i := y][j := x];
    assert multiset(t) == multiset(r);
    assert forall k | 0 <= k < |r| :: key(t[k]) == key(r[k]);
    assert t[i] != r[i];
  }

  // --------------------------------------------------------- keys tell apart

  lemma AllNoNul(a: seq<Bytes>, b: seq<Bytes>)
    requires NoNul(a) && NoNul(b)
    ensures NoNul(a + b)
  {
  }

  lemma ItoaPlain(n: nat)
    ensures NUL !in Itoa(n)
  {
  }

  lemma FindingsTell(findings: seq<Finding>)
    requires forall f | f in findings :: TidyFinding(f)
    ensures KeyTells(FindingKey, findings)
  {
    forall x, y | x in findings && y in findings && FindingKey(x) == FindingKey(y) ensures x == y {
      JoinInjective(FindingFields(x), FindingFields(y));
      var a, b := FindingFields(x), FindingFields(y);
      assert a[0] == b[0] && a[1] == b[1] && a[2] == b[2] && a[3] == b[3] && a[4] == b[4];
    }
  }

  lemma OperationTells(x: Operation, y: Operation)
    requires TidyOperation(x) && TidyOperation(y) && OperationKey(x) == OperationKey(y)
    ensures x == y
  {
    var a, b := OperationFields(x), OperationFields(y);
    AllNoNul([x.id, x.stage, x.service, x.resourceId, x.action], if x.dependsOn == [] then [[]] else x.dependsOn);
    AllNoNul([y.id, y.stage, y.service, y.resourceId, y.action], if y.dependsOn == [] then [[]] else y.dependsOn);
    JoinInjective(a, b);
    assert a[0] == b[0] && a[1] == b[1] && a[2] == b[2] && a[3] == b[3] && a[4] == b[4];
    assert a[5..] == b[5..];
    assert a[5..] == if x.dependsOn == [] then [[]] else x.dependsOn;
    assert b[5..] == if y.dependsOn == [] then [[]] else y.dependsOn;
    var unnamed: Bytes := [];
    assert unnamed in [unnamed];
  }

  predicate TidyArtifactView(a: ArtifactView) { NUL !in a.digest && NUL !in a.media }

  predicate TidyChunkView(c: ChunkView) {
    TidyArtifactView(c.data) && (c.index.Some? ==> TidyArtifactView(c.index.value))
  }

  lemma ArtifactFieldsTell(x: ArtifactView, y: ArtifactView)
    requires ArtifactFields(x) == ArtifactFields(y)
    ensures x == y
  {
    var a, b := ArtifactFields(x), ArtifactFields(y);
    assert a[0] == b[0] && a[1] == b[1] && a[2] == b[2];
    ItoaInjective(x.size, y.size);
  }

  lemma ArtifactNoNul(a: ArtifactView)
    requires TidyArtifactView(a)
    ensures NoNul(ArtifactFields(a))
  {
    ItoaPlain(a.size);
  }

  lemma ArtifactTells(x: ArtifactView, y: ArtifactView)
    requires TidyArtifactView(x) && TidyArtifactView(y) && ArtifactKey(x) == ArtifactKey(y)
    ensures x == y
  {
    ArtifactNoNul(x);
    ArtifactNoNul(y);
    JoinInjective(ArtifactFields(x), ArtifactFields(y));
    ArtifactFieldsTell(x, y);
  }

  lemma ChunkNoNul(c: ChunkView)
    requires TidyChunkView(c)
    ensures NoNul(ChunkFields(c)) && |ChunkFields(c)| == if c.index.None? then 6 else 8
    ensures ChunkFields(c)[..3] == ArtifactFields(c.data)
    ensures c.index.Some? ==> ChunkFields(c)[3..6] == ArtifactFields(c.index.value)
    ensures var f := ChunkFields(c); f[|f| - 2] == Itoa(c.records) && f[|f| - 1] == Itoa(c.sourceBytes)
  {
    ArtifactNoNul(c.data);
    if c.index.Some? {
      ArtifactNoNul(c.index.value);
    }
    ItoaPlain(c.records);
    ItoaPlain(c.sourceBytes);
    var index := if c.index.None? then [[]] else ArtifactFields(c.index.value);
    AllNoNul(ArtifactFields(c.data), index);
    AllNoNul(ArtifactFields(c.data) + index, [Itoa(c.records), Itoa(c.sourceBytes)]);
  }

  lemma ChunkTells(x: ChunkView, y: ChunkView)
    requires TidyChunkView(x) && TidyChunkView(y) && ChunkKey(x) == ChunkKey(y)
    ensures x == y
  {
    ChunkNoNul(x);
    ChunkNoNul(y);
    JoinInjective(ChunkFields(x), ChunkFields(y));
    ArtifactFieldsTell(x.data, y.data);
    if x.index.Some? {
      ArtifactFieldsTell(x.index.value, y.index.value);
    }
    ItoaInjective(x.records, y.records);
    ItoaInjective(x.sourceBytes, y.sourceBytes);
  }

  lemma RuleTells(x: RuleSummary, y: RuleSummary)
    requires NoNul(RuleFields(x)) && NoNul(RuleFields(y)) && RuleKey(x) == RuleKey(y)
    ensures x.id == y.id
  {
    JoinInjective(RuleFields(x), RuleFields(y));
    assert RuleFields(x)[0] == RuleFields(y)[0];
  }

  /** Two operations that differ in an empty dependency only have the same key, so
      sort.Slice may leave them in either order. */
  lemma EmptyDependencyTies() returns (x: Operation, y: Operation)
    ensures x != y && OperationKey(x) == OperationKey(y) && !TidyOperation(y)
    ensures SortOf(ByKey(OperationKey), [x, y], [x, y]) && SortOf(ByKey(OperationKey), [y, x], [x, y])
  {
    x, y := Operation([1], [1], [1], [1], [1], []), Operation([1], [1], [1], [1], [1], [[]]);
    assert OperationFields(x) == OperationFields(y);
    LeTotal(OperationKey(x), OperationKey(x));
    assert multiset([x, y]) == multiset{x, y} == multiset([y, x]);
    assert |x.dependsOn| == 0 && |y.dependsOn| == 1;
  }

  // --------------------------------------------------- each part is determined

  lemma OneText(r: seq<Bytes>, a: seq<Bytes>, t: seq<Bytes>, b: seq<Bytes>)
    requires SortOf(ByKey(Self), r, a) && SortOf(ByKey(Self), t, b) && multiset(a) == multiset(b)
    ensures r == t
  {
    OneSort(Self, r, a, t, b);
  }

  lemma OneGovernance(p: Option<Governance>, g: Option<Governance>, q: Option<Governance>, h: Option<Governance>)
    requires IsGovernance(p, g) && IsGovernance(q, h) && SameGovernance(g, h) && (g.Some? ==> TidyGovernance(g.value))
    ensures p == q
  {
    if g.Some? && h.Some? && p.Some? && q.Some? {
      OneText(p.value.keyIds, g.value.keyIds, q.value.keyIds, h.value.keyIds);
      OneText(p.value.algorithms, g.value.algorithms, q.value.algorithms, h.value.algorithms);
      OneRules(p.value.rules, g.value, q.value.rules, h.value.rules);
      OneCohorts(p.value.cohorts, g.value, q.value.cohorts, h.value.cohorts);
    }
  }

  lemma OneRules(r: seq<RuleSummary>, g: Governance, t: seq<RuleSummary>, b: seq<RuleSummary>)
    requires SortOf(ByKey(RuleKey), r, g.rules) && SortOf(ByKey(RuleKey), t, b) && multiset(g.rules) == multiset(b)
             && TidyGovernance(g)
    ensures r == t
  {
    forall x, y | x in g.rules && y in g.rules && RuleKey(x) == RuleKey(y) ensures x == y {
      RuleTells(x, y);
    }
    OneSort(RuleKey, r, g.rules, t, b);
  }

  lemma OneCohorts(r: seq<CohortSummary>, g: Governance, t: seq<CohortSummary>, b: seq<CohortSummary>)
    requires SortOf(ByKey(CohortKey), r, g.cohorts) && SortOf(ByKey(CohortKey), t, b)
             && multiset(g.cohorts) == multiset(b)
    requires TidyGovernance(g)
    ensures r == t
  {
    OneSort(CohortKey, r, g.cohorts, t, b);
  }

  /** An operation with its dependencies in byte order. */
  ghost function SortedOperation(o: Operation): Operation {
    o.(dependsOn := Sort(ByKey(Self), o.dependsOn))
  }

  lemma SortedOperationIs(p: Operation, o: Operation)
    requires IsOperation(p, o)
    ensures p == SortedOperation(o)
  {
    KeyOrder(Self);
    SortSorts(ByKey(Self), o.dependsOn);
    OneText(p.dependsOn, o.dependsOn, Sort(ByKey(Self), o.dependsOn), o.dependsOn);
  }

  lemma SortedOperationSame(x: Operation, y: Operation)
    requires OperationContentOf(x) == OperationContentOf(y)
    ensures SortedOperation(x) == SortedOperation(y)
  {
    KeyOrder(Self);
    SortSorts(ByKey(Self), x.dependsOn);
    SortSorts(ByKey(Self), y.dependsOn);
    OneText(Sort(ByKey(Self), x.dependsOn), x.dependsOn, Sort(ByKey(Self), y.dependsOn), y.dependsOn);
  }

  lemma SortedOperationTidy(o: Operation)
    requires TidyOperation(o)
    ensures TidyOperation(SortedOperation(o))
  {
    SortMultiset(ByKey(Self), o.dependsOn);
    var sorted := Sort(ByKey(Self), o.dependsOn);
    forall d | d in sorted ensures NUL !in d && d != [] {
      assert d in multiset(sorted) && d in o.dependsOn;
      var k :| 0 <= k < |o.dependsOn| && o.dependsOn[k] == d;
    }
  }

  lemma EachIs(each: seq<Operation>, operations: seq<Operation>)
    requires EachOperation(each, operations)
    ensures each == Map(SortedOperation, operations)
  {
    forall i | 0 <= i < |each| ensures each[i] == Map(SortedOperation, operations)[i] {
      SortedOperationIs(each[i], operations[i]);
    }
  }

  lemma OneOperations(p: seq<Operation>, a: seq<Operation>, q: seq<Operation>, b: seq<Operation>)
    requires AreOperations(p, a) && AreOperations(q, b) && forall o | o in a :: TidyOperation(o)
    requires multiset(Map(OperationContentOf, a)) == multiset(Map(OperationContentOf, b))
    ensures p == q
  {
    var each :| EachOperation(each, a) && SortOf(ByKey(OperationKey), p, each);
    var other :| EachOperation(other, b) && SortOf(ByKey(OperationKey), q, other);
    EachIs(each, a);
    EachIs(other, b);
    EachSame(a, b);
    OperationsTell(a);
    OneSort(OperationKey, p, each, q, other);
  }

  /** Operations have one projection exactly if no two of them, with sorted
      dependencies, share a key. */
  lemma OneProjectionOfOperations(operations: seq<Operation>)
    ensures (forall p, q | AreOperations(p, operations) && AreOperations(q, operations) :: p == q)
            <==> KeyTells(OperationKey, Map(SortedOperation, operations))
  {
    var each := Map(SortedOperation, operations);
    forall p ensures AreOperations(p, operations) <==> SortOf(ByKey(OperationKey), p, each) {
      SortsOf(p, operations);
    }
    OneArrangement(OperationKey, each);
  }

  lemma SortsOf(p: seq<Operation>, operations: seq<Operation>)
    ensures AreOperations(p, operations) <==> SortOf(ByKey(OperationKey), p, Map(SortedOperation, operations))
  {
    hide OperationKey;
    var all := Map(SortedOperation, operations);
    if AreOperations(p, operations) {
      var each :| EachOperation(each, operations) && SortOf(ByKey(OperationKey), p, each);
      EachIs(each, operations);
    }
    KeyOrder(Self);
    forall i | 0 <= i < |all| ensures IsOperation(all[i], operations[i]) {
      SortSorts(ByKey(Self), operations[i].dependsOn);
    }
    assert EachOperation(all, operations);
  }

  lemma EachSame(a: seq<Operation>, b: seq<Operation>)
    requires multiset(Map(OperationContentOf, a)) == multiset(Map(OperationContentOf, b))
    ensures multiset(Map(SortedOperation, a)) == multiset(Map(SortedOperation, b))
  {
    hide SortedOperation, OperationContentOf;
    forall x, y | x in a && y in b && OperationContentOf(x) == OperationContentOf(y)
        ensures SortedOperation(x) == SortedOperation(y) {
      SortedOperationSame(x, y);
    }
    Factor(OperationContentOf, SortedOperation, a, b);
  }

  lemma OperationsTell(a: seq<Operation>)
    requires forall o | o in a :: TidyOperation(o)
    ensures KeyTells(OperationKey, Map(SortedOperation, a))
  {
    hide TidyOperation, OperationKey, SortedOperation;
    var each := Map(SortedOperation, a);
    forall x, y | x in each && y in each && OperationKey(x) == OperationKey(y) ensures x == y {
      var o := MapMember(SortedOperation, a, x);
      var q := MapMember(SortedOperation, a, y);
      SortedOperationTidy(o);
      SortedOperationTidy(q);
      OperationTells(x, y);
    }
  }

  lemma OneFindings(r: seq<Finding>, a: seq<Finding>, t: seq<Finding>, b: seq<Finding>)
    requires SortOf(ByKey(FindingKey), r, a) && SortOf(ByKey(FindingKey), t, b) && multiset(a) == multiset(b)
    requires forall f | f in a :: TidyFinding(f)
    ensures r == t && forall f | f in r :: TidyFinding(f)
  {
    FindingsTell(a);
    OneSort(FindingKey, r, a, t, b);
    forall f | f in r ensures TidyFinding(f) {
      assert f in multiset(r) && f in a;
    }
  }

  lemma SameChunkViews(a: seq<Chunk>, b: seq<Chunk>)
    requires multiset(Map(ChunkContentOf, a)) == multiset(Map(ChunkContentOf, b))
    ensures multiset(Map(ViewChunk, a)) == multiset(Map(ViewChunk, b))
  {
    Factor(ChunkContentOf, ViewChunk, a, b);
  }

  lemma SameArtifactViews(a: seq<Artifact>, b: seq<Artifact>)
    requires multiset(Map(ArtifactContentOf, a)) == multiset(Map(ArtifactContentOf, b))
    ensures multiset(Map(ViewArtifact, a)) == multiset(Map(ViewArtifact, b))
  {
    Factor(ArtifactContentOf, ViewArtifact, a, b);
  }

  lemma OneChunks(r: seq<ChunkView>, a: seq<Chunk>, t: seq<ChunkView>, b: seq<Chunk>)
    requires SortOf(ByKey(ChunkKey), r, Map(ViewChunk, a)) && SortOf(ByKey(ChunkKey), t, Map(ViewChunk, b))
    requires multiset(Map(ChunkContentOf, a)) == multiset(Map(ChunkContentOf, b)) && forall c | c in a :: TidyChunk(c)
    ensures r == t
  {
    hide ChunkKey, TidyChunk, ChunkContentOf, ViewChunk;
    SameChunkViews(a, b);
    ChunksTell(a);
    OneSort(ChunkKey, r, Map(ViewChunk, a), t, Map(ViewChunk, b));
  }

  lemma ChunksTell(a: seq<Chunk>)
    requires forall c | c in a :: TidyChunk(c)
    ensures KeyTells(ChunkKey, Map(ViewChunk, a))
  {
    hide ChunkKey, TidyChunk, ViewChunk;
    var views := Map(ViewChunk, a);
    forall x, y | x in views && y in views && ChunkKey(x) == ChunkKey(y) ensures x == y {
      var c := MapMember(ViewChunk, a, x);
      var d := MapMember(ViewChunk, a, y);
      TidyViews(c);
      TidyViews(d);
      ChunkTells(x, y);
    }
  }

  lemma TidyViews(c: Chunk)
    requires TidyChunk(c)
    ensures TidyChunkView(ViewChunk(c))
  {
  }

  lemma OneArtifacts(r: seq<ArtifactView>, a: seq<Artifact>, t: seq<ArtifactView>, b: seq<Artifact>)
    requires SortOf(ByKey(ArtifactKey), r, Map(ViewArtifact, a)) && SortOf(ByKey(ArtifactKey), t, Map(ViewArtifact, b))
    requires multiset(Map(ArtifactContentOf, a)) == multiset(Map(ArtifactContentOf, b))
    requires forall c | c in a :: TidyArtifact(c)
    ensures r == t
  {
    hide ArtifactKey, TidyArtifact, ArtifactContentOf, ViewArtifact;
    SameArtifactViews(a, b);
    ArtifactsTell(a);
    OneSort(ArtifactKey, r, Map(ViewArtifact, a), t, Map(ViewArtifact, b));
  }

  lemma ArtifactsTell(a: seq<Artifact>)
    requires forall c | c in a :: TidyArtifact(c)
    ensures KeyTells(ArtifactKey, Map(ViewArtifact, a))
  {
    hide ArtifactKey;
    var views := Map(ViewArtifact, a);
    forall x, y | x in views && y in views && ArtifactKey(x) == ArtifactKey(y) ensures x == y {
      var c := MapMember(ViewArtifact, a, x);
      var d := MapMember(ViewArtifact, a, y);
      ArtifactTells(x, y);
    }
  }

  lemma OneView(v: DataView, d: Data, u: DataView, e: Data)
    requires IsDataView(v, d) && IsDataView(u, e) && DataContentOf(d) == DataContentOf(e) && TidyData(d)
    ensures v == u
  {
    if d.Dataset? {
      OneChunks(v.chunks, d.chunks, u.chunks, e.chunks);
    } else {
      OneArtifacts(v.artifacts, d.artifacts, u.artifacts, e.artifacts);
    }
  }

  lemma OneDataDigest(t: Text, a: Bytes, d: Data, b: Bytes, e: Data)
    requires IsDataDigest(t, a, d) && IsDataDigest(t, b, e) && DataContentOf(d) == DataContentOf(e) && TidyData(d)
    ensures a == b
  {
    if !d.NoData? {
      var v :| IsDataView(v, d) && a == t.hash(t.data(v));
      var u :| IsDataView(u, e) && b == t.hash(t.data(u));
      OneView(v, d, u, e);
    }
  }

  lemma OneState(t: Text, a: State, s: Snapshot, b: State, u: Snapshot)
    requires FromSnapshot(t, s, a) && FromSnapshot(t, u, b) && SameSnapshot(t, s, u) && TidySnapshot(s)
    requires a.selected == b.selected
    ensures a == b && forall f | f in a.findings :: TidyFinding(f)
  {
    OneDataDigest(t, a.data, s.data, b.data, u.data);
    OneFindings(a.findings, s.findings, b.findings, u.findings);
  }

  lemma SeenInBoth(t: Text, m: Manifest, n: Manifest, id: Identity)
    requires Covers(t, m, n) && SeenBefore(m, |m.snapshots|, id)
    ensures SeenBefore(n, |n.snapshots|, id)
  {
    var i :| 0 <= i < |m.snapshots| && m.snapshots[i].identity == id;
    assert m.snapshots[i] in m.snapshots;
    var u :| u in n.snapshots && SameSnapshot(t, m.snapshots[i], u);
    var j :| 0 <= j < |n.snapshots| && n.snapshots[j] == u;
  }

  lemma SameStateAt(t: Text, m: Manifest, n: Manifest, a: map<Identity, State>, b: map<Identity, State>, id: Identity)
    requires Matched(t, m, n) && (forall s | s in m.snapshots :: TidySnapshot(s))
    requires States(t, m, |m.snapshots|, a) && States(t, n, |n.snapshots|, b) && id in a && id in b
    ensures a[id] == b[id] && forall f | f in a[id].findings :: TidyFinding(f)
  {
    hide States, FromSnapshot, SameSnapshot, TidyFinding;
    SelectedState(t, m, a, id);
    SelectedState(t, n, b, id);
    if SeenBefore(m, |m.snapshots|, id) {
      SeenInBoth(t, m, n, id);
      var s := StateFrom(t, m, a, id);
      var u :| u in n.snapshots && SameSnapshot(t, s, u);
      SameIdentity(t, s, u);
      StateFromThis(t, n, b, u);
      OneState(t, a[id], s, b[id], u);
    } else if SeenBefore(n, |n.snapshots|, id) {
      SeenInBoth(t, n, m, id);
    }
  }

  lemma SelectedState(t: Text, m: Manifest, a: map<Identity, State>, id: Identity)
    requires States(t, m, |m.snapshots|, a) && id in a
    ensures a[id].selected <==> id in m.selected
    ensures !SeenBefore(m, |m.snapshots|, id) ==> WithoutSnapshot(a[id])
  {
  }

  lemma StateFrom(t: Text, m: Manifest, a: map<Identity, State>, id: Identity) returns (s: Snapshot)
    requires States(t, m, |m.snapshots|, a) && id in a && SeenBefore(m, |m.snapshots|, id)
    ensures s in m.snapshots && s.identity == id && FromSnapshot(t, s, a[id])
  {
    var i :| 0 <= i < |m.snapshots| && m.snapshots[i].identity == id;
    s := m.snapshots[i];
  }

  lemma StateFromThis(t: Text, m: Manifest, a: map<Identity, State>, s: Snapshot)
    requires States(t, m, |m.snapshots|, a) && s in m.snapshots
    ensures s.identity in a && FromSnapshot(t, s, a[s.identity])
  {
    var i :| 0 <= i < |m.snapshots| && m.snapshots[i] == s;
  }

  lemma SameIdentity(t: Text, s: Snapshot, u: Snapshot)
    requires SameSnapshot(t, s, u)
    ensures s.identity == u.identity
  {
  }

  lemma SameStates(t: Text, m: Manifest, n: Manifest, a: map<Identity, State>, b: map<Identity, State>)
    requires Matched(t, m, n) && (forall s | s in m.snapshots :: TidySnapshot(s))
    requires States(t, m, |m.snapshots|, a) && States(t, n, |n.snapshots|, b)
    ensures a == b && forall id, f | id in a && f in a[id].findings :: TidyFinding(f)
  {
    forall id ensures id in a <==> id in b {
      if SeenBefore(m, |m.snapshots|, id) { SeenInBoth(t, m, n, id); }
      if SeenBefore(n, |n.snapshots|, id) { SeenInBoth(t, n, m, id); }
    }
    hide States, SeenBefore;
    forall id | id in a ensures a[id] == b[id] && forall f | f in a[id].findings :: TidyFinding(f) {
      SameStateAt(t, m, n, a, b, id);
    }
  }

  lemma OnceEach(a: seq<Identity>, b: seq<Identity>)
    requires forall i, j | 0 <= i < j < |a| :: a[i] != a[j]
    requires forall i, j | 0 <= i < j < |b| :: b[i] != b[j]
    requires forall id :: id in a <==> id in b
    ensures multiset(a) == multiset(b)
  {
    forall id ensures multiset(a)[id] == multiset(b)[id] {
      OnlyOnce(a, id);
      OnlyOnce(b, id);
      assert id in multiset(a) <==> id in a;
      assert id in multiset(b) <==> id in b;
    }
  }

  lemma OneOrder(a: seq<Identity>, b: seq<Identity>, all: set<Identity>)
    requires InKeyOrder(a, all) && InKeyOrder(b, all) && forall id | id in all :: Plain(id)
    ensures a == b
  {
    OnceEach(a, b);
    forall x, y | x in a && y in a && Key(x) == Key(y) ensures x == y {
      KeyInjective(x, y);
    }
    OneSort(Key, a, a, b, b);
  }

  lemma {:induction false} FindingsOfTidy(findings: seq<Finding>, n: nat, id: Bytes)
    requires n <= |findings| && forall f | f in findings :: TidyFinding(f)
    ensures forall f | f in FindingsOf(findings, n, id) :: TidyFinding(f)
  {
    if n > 0 {
      FindingsOfTidy(findings, n - 1, id);
      assert findings[n - 1] in findings;
    }
  }

  lemma OneFindingsDigest(t: Text, a: Bytes, b: Bytes, findings: seq<Finding>, own: seq<Finding>, id: Bytes)
    requires IsFindingsDigest(t, a, findings, own, id) && IsFindingsDigest(t, b, findings, own, id)
    requires (forall f | f in findings :: TidyFinding(f)) && (forall f | f in own :: TidyFinding(f))
    ensures a == b
  {
    var whole := FindingsOf(findings, |findings|, id) + own;
    FindingsOfTidy(findings, |findings|, id);
    var x :| SortOf(ByKey(FindingKey), x, whole) && a == OptionalFindings(t, x);
    var y :| SortOf(ByKey(FindingKey), y, whole) && b == OptionalFindings(t, y);
    OneFindings(x, whole, y, whole);
  }

  lemma OneResource(t: Text, operations: seq<Operation>, findings: seq<Finding>, governance: Bytes,
                    x: ProjectedResource, y: ProjectedResource, st: State)
    requires IsResource(t, operations, findings, governance, x, st)
             && IsResource(t, operations, findings, governance, y, st)
    requires x.identity == y.identity
    requires (forall f | f in findings :: TidyFinding(f)) && (forall f | f in st.findings :: TidyFinding(f))
    ensures x == y
  {
    OneFindingsDigest(t, x.findings, y.findings, findings, st.findings, x.identity.id);
  }

  lemma OneResources(t: Text, operations: seq<Operation>, findings: seq<Finding>, governance: Bytes,
                     p: seq<ProjectedResource>, q: seq<ProjectedResource>, states: map<Identity, State>)
    requires AreResources(t, operations, findings, governance, p, states)
             && AreResources(t, operations, findings, governance, q, states)
    requires forall id | id in states :: Plain(id)
    requires forall f | f in findings :: TidyFinding(f)
    requires forall id, f | id in states && f in states[id].findings :: TidyFinding(f)
    ensures p == q
  {
    hide IsResource, TidyFinding, Plain;
    OneOrder(Map(IdentityOf, p), Map(IdentityOf, q), states.Keys);
    assert |p| == |q|;
    forall i | 0 <= i < |p| ensures p[i] == q[i] {
      assert Map(IdentityOf, p)[i] == Map(IdentityOf, q)[i];
      OneResource(t, operations, findings, governance, p[i], q[i], states[p[i].identity]);
    }
  }

  lemma KnownIsPlain(t: Text, m: Manifest, states: map<Identity, State>)
    requires Tidy(m) && States(t, m, |m.snapshots|, states)
    ensures forall id | id in states :: Plain(id)
  {
    forall id | id in states ensures Plain(id) {
      if SeenBefore(m, |m.snapshots|, id) {
        var i :| 0 <= i < |m.snapshots| && m.snapshots[i].identity == id;
        assert m.snapshots[i] in m.snapshots;
      }
    }
  }

  /** Permuting the selections, snapshots, chunks, operations, dependencies,
      findings or governance lists of a tidy manifest changes neither the
      projection nor its digest; nor does moving its artifacts. */
  lemma OrderDoesNotShow(t: Text, m: Manifest, p: Projection, n: Manifest, q: Projection)
    requires Digests(t) && Tidy(m) && SameContent(t, m, n) && IsProjection(t, m, p) && IsProjection(t, n, q)
    ensures p == q
  {
    OneGovernance(p.governance, m.governance, q.governance, n.governance);
    OneOperations(p.operations, m.operations, q.operations, n.operations);
    OneFindings(p.findings, m.findings, q.findings, n.findings);
    var a :| States(t, m, |m.snapshots|, a)
             && AreResources(t, p.operations, p.findings, OptionalGovernance(t, p.governance), p.resources, a);
    var b :| States(t, n, |n.snapshots|, b)
             && AreResources(t, q.operations, q.findings, OptionalGovernance(t, q.governance), q.resources, b);
    hide IsGovernance, AreOperations, SameGovernance, AreResources, States, TidySnapshot, TidyOperation, TidyFinding,
        TidyGovernance;
    SameStates(t, m, n, a, b);
    KnownIsPlain(t, m, a);
    OneResources(t, p.operations, p.findings, OptionalGovernance(t, p.governance), p.resources, q.resources, a);
    assert p.(digest := []) == q.(digest := []);
  }

  lemma KeysDiffer(t: Text, m: Manifest, p: Projection)
    requires Tidy(m) && IsProjection(t, m, p)
    ensures forall i, j | 0 <= i < j < |p.resources| :: Key(p.resources[i].identity) != Key(p.resources[j].identity)
  {
    var states :| States(t, m, |m.snapshots|, states)
                  && AreResources(t, p.operations, p.findings, OptionalGovernance(t, p.governance), p.resources,
                                  states);
    KnownIsPlain(t, m, states);
    hide Tidy, States, IsResource, Plain, Key;
    var ids := Map(IdentityOf, p.resources);
    forall i, j | 0 <= i < j < |p.resources| ensures Key(p.resources[i].identity) != Key(p.resources[j].identity) {
      assert ids[i] != ids[j] && ids[i] in ids && ids[j] in ids;
      if Key(ids[i]) == Key(ids[j]) {
        KeyInjective(ids[i], ids[j]);
      }
    }
  }

  /** An index of resources with different keys has them all. */
  lemma {:induction false} IndexedAll(resources: seq<ProjectedResource>)
    requires forall i, j | 0 <= i < j < |resources| :: Key(resources[i].identity) != Key(resources[j].identity)
    ensures |Comparison.IndexOf(resources)| == |resources|
  {
    hide Key;
    if resources != [] {
      var front, last := resources[..|resources| - 1], resources[|resources| - 1];
      IndexedAll(front);
      Comparison.IndexedLast(front, Key(last.identity));
      var index := Comparison.IndexOf(front);
      assert index[Key(last.identity) := last].Keys == index.Keys + {Key(last.identity)};
    }
  }

  /** A comparison of two arrangements of one manifest reports every resource, and
      reports it as unchanged. */
  lemma ReorderedIsUnchanged(t: Text, m: Manifest, p: Projection, n: Manifest, q: Projection,
                             receipt: Comparison.Receipt)
    requires Digests(t) && Tidy(m) && SameContent(t, m, n) && IsProjection(t, m, p) && IsProjection(t, n, q)
    requires Comparison.IsReceipt(receipt, p, q)
    ensures receipt.categories == [] && receipt.baseline == receipt.current
    ensures receipt.counts == Comparison.Counts(0, 0, 0, |p.resources|)
    ensures forall i | 0 <= i < |receipt.resources| :: receipt.resources[i].outcome == Comparison.Unchanged
  {
    OrderDoesNotShow(t, m, p, n, q);
    KeysDiffer(t, m, p);
    hide IsProjection, Tidy, SameContent;
    IndexedAll(p.resources);
    Comparison.SelfComparison(receipt, p);
  }
}
