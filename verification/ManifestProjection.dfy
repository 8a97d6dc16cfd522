/** The canonical projection of a manifest (internal/inspect/project.go): lists are
    sorted by string keys, so that their order in the manifest does not matter. */
module ManifestProjection {
  import opened ByteStrings
  import opened Identities
  import opened Mapping
  import opened Prefixes
  import opened Projections
  import opened Sorting
  import opened Wrappers

  datatype Artifact = Artifact(path: Bytes, digest: Bytes, size: nat, media: Bytes)

  datatype Chunk = Chunk(data: Artifact, index: Option<Artifact>, records: nat, sourceBytes: nat)

  datatype Data = NoData
      | Dataset(format: Bytes, records: nat, sourceBytes: nat, consistency: Bytes, chunks: seq<Chunk>)
                | Legacy(artifacts: seq<Artifact>)

  datatype Snapshot = Snapshot(identity: Identity, structure: Bytes, data: Data, findings: seq<Finding>)

  datatype Manifest = Manifest(source: (Bytes, Bytes), target: (Bytes, Bytes), selected: seq<Identity>,
                               snapshots: seq<Snapshot>,
                               operations: seq<Operation>, findings: seq<Finding>, governance: Option<Governance>)

  /** An artifact without its path. */
  datatype ArtifactView = ArtifactView(digest: Bytes, size: nat, media: Bytes)

  datatype ChunkView = ChunkView(data: ArtifactView, index: Option<ArtifactView>, records: nat, sourceBytes: nat)

  datatype DataView = DatasetView(format: Bytes, records: nat, sourceBytes: nat, consistency: Bytes,
                                  chunks: seq<ChunkView>)
                    | LegacyView(artifacts: seq<ArtifactView>)

  /** JSON text and SHA-256; `canonical` fails on a structure that is no JSON. */
  datatype Text = Text(hash: Bytes -> Bytes, canonical: Bytes -> Option<Bytes>, data: DataView -> Bytes,
                       operations: seq<Operation> -> Bytes, findings: seq<Finding> -> Bytes,
                           governance: Governance -> Bytes,
                       projection: Projection -> Bytes)

  ghost predicate Digests(t: Text) {
    forall b :: t.hash(b) != []
  }

  // --------------------------------------------------------------- sort keys

  /** The order of sort.Slice with a string key. */
  function ByKey<T>(key: T -> Bytes): (T, T) -> bool {
    (a, b) => Le(key(a), key(b))
  }

  function FindingFields(f: Finding): seq<Bytes> {
    [f.code, f.resource, f.property, f.severity, f.support]
  }

  function FindingKey(f: Finding): Bytes {
    JoinNul(FindingFields(f))
  }

  function OperationFields(o: Operation): seq<Bytes> {
    [o.id, o.stage, o.service, o.resourceId, o.action] + if o.dependsOn == [] then [[]] else o.dependsOn
  }

  function OperationKey(o: Operation): Bytes {
    JoinNul(OperationFields(o))
  }

  function ArtifactFields(a: ArtifactView): seq<Bytes> {
    [a.digest, Itoa(a.size), a.media]
  }

  function ArtifactKey(a: ArtifactView): Bytes {
    JoinNul(ArtifactFields(a))
  }

  function ChunkFields(c: ChunkView): seq<Bytes> {
    ArtifactFields(c.data) + (if c.index.None? then [[]] else ArtifactFields(c.index.value))
    + [Itoa(c.records), Itoa(c.sourceBytes)]
  }

  function ChunkKey(c: ChunkView): Bytes {
    JoinNul(ChunkFields(c))
  }

  function RuleFields(r: RuleSummary): seq<Bytes> {
    [r.id, r.action]
  }

  function RuleKey(r: RuleSummary): Bytes {
    JoinNul(RuleFields(r))
  }

  function CohortKey(c: CohortSummary): Bytes {
    c.resource
  }

  function Self(b: Bytes): Bytes {
    b
  }

  /** One of the results that sort.Slice may give: it need not be stable. */
  method SortSlice<T(!new)>(key: T -> Bytes, s: seq<T>) returns (r: seq<T>)
    ensures SortOf(ByKey(key), r, s)
  {
    KeyOrder(key);
    r := Sort(ByKey(key), s);
    SortSorts(ByKey(key), s);
  }

  lemma KeyOrder<T(!new)>(key: T -> Bytes)
    ensures TotalPreorder(ByKey(key))
  {
    forall a: T, b: T ensures ByKey(key)(a, b) || ByKey(key)(b, a) {
      LeTotal(key(a), key(b));
    }
    forall a: T, b: T, c: T | ByKey(key)(a, b) && ByKey(key)(b, c) ensures ByKey(key)(a, c) {
      LeTransitive(key(a), key(b), key(c));
    }
  }

  // ------------------------------------------------------------- what is kept

  function ViewArtifact(a: Artifact): ArtifactView {
    ArtifactView(a.digest, a.size, a.media)
  }

  function ViewChunk(c: Chunk): ChunkView {
    ChunkView(ViewArtifact(c.data), if c.index.None? then None else Some(ViewArtifact(c.index.value)),
              c.records, c.sourceBytes)
  }

  /** The data of a snapshot with its chunks or artifacts in some key order. */
  ghost predicate IsDataView(v: DataView, d: Data) {
    match d
    case NoData => false
    case Dataset(format, records, sourceBytes, consistency, chunks) =>
      && v.DatasetView? && v == DatasetView(format, records, sourceBytes, consistency, v.chunks)
      && SortOf(ByKey(ChunkKey), v.chunks, Map(ViewChunk, chunks))
    case Legacy(artifacts) => v.LegacyView? && SortOf(ByKey(ArtifactKey), v.artifacts, Map(ViewArtifact, artifacts))
  }

  ghost predicate IsDataDigest(t: Text, digest: Bytes, d: Data) {
    if d.NoData? then digest == [] else exists v :: IsDataView(v, d) && digest == t.hash(t.data(v))
  }

  ghost predicate IsOperation(p: Operation, o: Operation) {
    p == o.(dependsOn := p.dependsOn) && SortOf(ByKey(Self), p.dependsOn, o.dependsOn)
  }

  ghost predicate IsGovernance(p: Option<Governance>, g: Option<Governance>) {
    if g.None? || p.None? then p == g
    else
      && p.value == g.value.(keyIds := p.value.keyIds, algorithms := p.value.algorithms, rules := p.value.rules,
                             cohorts := p.value.cohorts)
      && SortOf(ByKey(Self), p.value.keyIds, g.value.keyIds)
      && SortOf(ByKey(Self), p.value.algorithms, g.value.algorithms)
      && SortOf(ByKey(RuleKey), p.value.rules, g.value.rules)
      && SortOf(ByKey(CohortKey), p.value.cohorts, g.value.cohorts)
  }

  method ProjectData(t: Text, d: Data) returns (digest: Bytes)
    ensures IsDataDigest(t, digest, d)
  {
    if d.NoData? {
      return [];
    }
    var view;
    if d.Dataset? {
      var chunks := SortSlice(ChunkKey, Map(ViewChunk, d.chunks));
      view := DatasetView(d.format, d.records, d.sourceBytes, d.consistency, chunks);
    } else {
      var artifacts := SortSlice(ArtifactKey, Map(ViewArtifact, d.artifacts));
      view := LegacyView(artifacts);
    }
    assert IsDataView(view, d);
    digest := t.hash(t.data(view));
  }

  method ProjectFindings(findings: seq<Finding>) returns (r: seq<Finding>)
    ensures SortOf(ByKey(FindingKey), r, findings)
  {
    r := SortSlice(FindingKey, findings);
  }

  method ProjectGovernance(g: Option<Governance>) returns (p: Option<Governance>)
    ensures IsGovernance(p, g)
  {
    if g.None? {
      return None;
    }
    var keyIds := SortSlice(Self, g.value.keyIds);
    var algorithms := SortSlice(Self, g.value.algorithms);
    var rules := SortSlice(RuleKey, g.value.rules);
    var cohorts := SortSlice(CohortKey, g.value.cohorts);
    p := Some(g.value.(keyIds := keyIds, algorithms := algorithms, rules := rules, cohorts := cohorts));
  }

  /** Each operation with its dependencies sorted, and the operations sorted. */
  ghost predicate AreOperations(p: seq<Operation>, operations: seq<Operation>) {
    exists each :: EachOperation(each, operations) && SortOf(ByKey(OperationKey), p, each)
  }

  ghost predicate EachOperation(each: seq<Operation>, operations: seq<Operation>) {
    |each| == |operations| && forall i | 0 <= i < |each| :: IsOperation(each[i], operations[i])
  }

  method ProjectOperations(operations: seq<Operation>) returns (p: seq<Operation>)
    ensures AreOperations(p, operations)
  {
    var each: seq<Operation> := [];
    for i := 0 to |operations|
      invariant |each| == i && forall k | 0 <= k < i :: IsOperation(each[k], operations[k])
    {
      var dependsOn := SortSlice(Self, operations[i].dependsOn);
      each := each + [operations[i].(dependsOn := dependsOn)];
    }
    p := SortSlice(OperationKey, each);
    assert EachOperation(each, operations);
  }

  // ---------------------------------------------------------------- resources

  /** projectionResource; an empty structure means that no snapshot was seen. */
  datatype State = State(selected: bool, structure: Bytes, data: Bytes, findings: seq<Finding>)

  ghost predicate FromSnapshot(t: Text, s: Snapshot, st: State) {
    && t.canonical(s.structure).Some? && st.structure == t.hash(t.canonical(s.structure).value)
    && IsDataDigest(t, st.data, s.data) && SortOf(ByKey(FindingKey), st.findings, s.findings)
  }

  ghost predicate WithoutSnapshot(st: State) {
    st.structure == [] && st.data == [] && st.findings == []
  }

  ghost predicate DistinctSnapshots(snapshots: seq<Snapshot>, n: nat) {
    forall i, j | 0 <= i < j < n && j < |snapshots| :: snapshots[i].identity != snapshots[j].identity
  }

  ghost predicate SeenBefore(m: Manifest, n: nat, id: Identity) {
    exists i :: 0 <= i < n && i < |m.snapshots| && m.snapshots[i].identity == id
  }

  /** The states after the selected resources and the first n snapshots. */
  ghost predicate States(t: Text, m: Manifest, n: nat, states: map<Identity, State>)
    requires n <= |m.snapshots|
  {
    && (forall id :: id in states <==> id in m.selected || SeenBefore(m, n, id))
    && (forall id | id in states :: states[id].selected <==> id in m.selected)
    && (forall i | 0 <= i < n ::
        m.snapshots[i].identity in states && FromSnapshot(t, m.snapshots[i], states[m.snapshots[i].identity]))
    && (forall id | id in states && !SeenBefore(m, n, id) :: WithoutSnapshot(states[id]))
    && DistinctSnapshots(m.snapshots, n)
  }

  method SelectResources(m: Manifest) returns (states: map<Identity, State>)
    ensures forall id :: id in states <==> id in m.selected
    ensures forall id | id in states :: states[id] == State(true, [], [], [])
  {
    states := map[];
    for i := 0 to |m.selected|
      invariant forall id :: id in states <==> exists k | 0 <= k < i :: m.selected[k] == id
      invariant forall id | id in states :: states[id] == State(true, [], [], [])
    {
      states := states[m.selected[i] := State(true, [], [], [])];
    }
  }

  /** Why a projection fails. */
  ghost predicate Unprojectable(t: Text, m: Manifest) {
    !DistinctSnapshots(m.snapshots, |m.snapshots|) || exists s :: s in m.snapshots && t.canonical(s.structure).None?
  }

  method AddSnapshot(t: Text, m: Manifest, n: nat, states: map<Identity, State>)
    returns (ok: bool, more: map<Identity, State>)
    requires Digests(t) && n < |m.snapshots| && States(t, m, n, states)
    ensures ok ==> States(t, m, n + 1, more)
    ensures !ok ==> Unprojectable(t, m)
  {
    var s := m.snapshots[n];
    more := states;
    if s.identity in states && states[s.identity].structure != [] {
      assert SeenBefore(m, n, s.identity);
      return false, more;
    }
    var canonical := t.canonical(s.structure);
    if canonical.None? {
      assert s in m.snapshots;
      return false, more;
    }
    var selected := s.identity in states && states[s.identity].selected;
    var findings := ProjectFindings(s.findings);
    var data := ProjectData(t, s.data);
    var state := State(selected, t.hash(canonical.value), data, findings);
    more := states[s.identity := state];
    NewSnapshot(t, m, n, states, state);
    ok := true;
  }

  lemma NewSnapshot(t: Text, m: Manifest, n: nat, states: map<Identity, State>, state: State)
    requires Digests(t) && n < |m.snapshots| && States(t, m, n, states)
    requires m.snapshots[n].identity in states ==> states[m.snapshots[n].identity].structure == []
    requires FromSnapshot(t, m.snapshots[n], state)
    requires state.selected <==> m.snapshots[n].identity in states && states[m.snapshots[n].identity].selected
    ensures States(t, m, n + 1, states[m.snapshots[n].identity := state])
  {
    var id := m.snapshots[n].identity;
    NotSeen(t, m, n, states, id);
    StillDistinct(m, n);
    hide FromSnapshot, WithoutSnapshot, SeenBefore, DistinctSnapshots;
    forall other ensures SeenBefore(m, n + 1, other) <==> SeenBefore(m, n, other) || other == id {
      SeenNext(m, n, other);
    }
  }

  lemma StillDistinct(m: Manifest, n: nat)
    requires n < |m.snapshots| && DistinctSnapshots(m.snapshots, n) && !SeenBefore(m, n, m.snapshots[n].identity)
    ensures DistinctSnapshots(m.snapshots, n + 1)
    ensures forall i | 0 <= i < n :: m.snapshots[i].identity != m.snapshots[n].identity
  {
    forall i | 0 <= i < n ensures SeenBefore(m, n, m.snapshots[i].identity) {
    }
  }

  lemma NotSeen(t: Text, m: Manifest, n: nat, states: map<Identity, State>, id: Identity)
    requires Digests(t) && n <= |m.snapshots| && States(t, m, n, states)
    requires id in states ==> states[id].structure == []
    ensures !SeenBefore(m, n, id)
  {
    if SeenBefore(m, n, id) {
      SeenHasStructure(t, m, n, states, id);
    }
  }

  lemma SeenHasStructure(t: Text, m: Manifest, n: nat, states: map<Identity, State>, id: Identity)
    requires Digests(t) && n <= |m.snapshots| && States(t, m, n, states) && SeenBefore(m, n, id)
    ensures id in states && states[id].structure != []
  {
    var i :| 0 <= i < n && m.snapshots[i].identity == id;
    assert FromSnapshot(t, m.snapshots[i], states[id]);
  }

  lemma SeenNext(m: Manifest, n: nat, other: Identity)
    requires n < |m.snapshots|
    ensures SeenBefore(m, n + 1, other) <==> SeenBefore(m, n, other) || other == m.snapshots[n].identity
  {
    if SeenBefore(m, n, other) {
      var i :| 0 <= i < n && m.snapshots[i].identity == other;
    }
  }

  method CollectStates(t: Text, m: Manifest) returns (ok: bool, states: map<Identity, State>)
    requires Digests(t)
    ensures ok <==> !Unprojectable(t, m)
    ensures ok ==> States(t, m, |m.snapshots|, states)
  {
    states := SelectResources(m);
    for n := 0 to |m.snapshots|
      invariant States(t, m, n, states)
    {
      ok, states := AddSnapshot(t, m, n, states);
      if !ok {
        return;
      }
    }
    ok := true;
  }

  // --------------------------------------------------- operations and findings

  function OperationOwner(service: Bytes, id: Bytes): Bytes {
    JoinNul([service, id])
  }

  /** The operations among the first n that belong to this owner. */
  function OperationsOf(operations: seq<Operation>, n: nat, owner: Bytes): seq<Operation>
    requires n <= |operations|
  {
    if n == 0 then []
    else OperationsOf(operations, n - 1, owner)
         + (if OperationOwner(operations[n - 1].service, operations[n - 1].resourceId) == owner
            then [operations[n - 1]] else [])
  }

  function FindingOwner(f: Finding): Bytes {
    f.resource
  }

  function FindingsOf(findings: seq<Finding>, n: nat, resource: Bytes): seq<Finding>
    requires n <= |findings|
  {
    if n == 0 then []
    else FindingsOf(findings, n - 1, resource)
         + (if FindingOwner(findings[n - 1]) == resource then [findings[n - 1]] else [])
  }

  function Group<T>(groups: map<Bytes, seq<T>>, k: Bytes): seq<T> {
    if k in groups then groups[k] else []
  }

  ghost predicate OperationsGrouped(groups: map<Bytes, seq<Operation>>, operations: seq<Operation>, n: nat)
    requires n <= |operations|
  {
    forall k :: Group(groups, k) == OperationsOf(operations, n, k)
  }

  ghost predicate FindingsGrouped(groups: map<Bytes, seq<Finding>>, findings: seq<Finding>, n: nat)
    requires n <= |findings|
  {
    forall k :: Group(groups, k) == FindingsOf(findings, n, k)
  }

  lemma GroupOperation(groups: map<Bytes, seq<Operation>>, operations: seq<Operation>, n: nat)
    requires n < |operations| && OperationsGrouped(groups, operations, n)
    ensures var owner := OperationOwner(operations[n].service, operations[n].resourceId);
            OperationsGrouped(groups[owner := Group(groups, owner) + [operations[n]]], operations, n + 1)
  {
    hide OperationOwner;
    var owner := OperationOwner(operations[n].service, operations[n].resourceId);
    var after := groups[owner := Group(groups, owner) + [operations[n]]];
    forall k ensures Group(after, k) == OperationsOf(operations, n + 1, k) {
      assert Group(groups, k) == OperationsOf(operations, n, k);
    }
  }

  lemma GroupFinding(groups: map<Bytes, seq<Finding>>, findings: seq<Finding>, n: nat)
    requires n < |findings| && FindingsGrouped(groups, findings, n)
    ensures var owner := FindingOwner(findings[n]);
            FindingsGrouped(groups[owner := Group(groups, owner) + [findings[n]]], findings, n + 1)
  {
    hide FindingOwner;
    var owner := FindingOwner(findings[n]);
    var after := groups[owner := Group(groups, owner) + [findings[n]]];
    forall k ensures Group(after, k) == FindingsOf(findings, n + 1, k) {
      assert Group(groups, k) == FindingsOf(findings, n, k);
    }
  }

  method GroupOperations(operations: seq<Operation>) returns (groups: map<Bytes, seq<Operation>>)
    ensures OperationsGrouped(groups, operations, |operations|)
  {
    groups := map[];
    for i := 0 to |operations|
      invariant OperationsGrouped(groups, operations, i)
    {
      hide OperationsGrouped, OperationOwner;
      GroupOperation(groups, operations, i);
      var owner := OperationOwner(operations[i].service, operations[i].resourceId);
      groups := groups[owner := Group(groups, owner) + [operations[i]]];
    }
  }

  method GroupFindings(findings: seq<Finding>) returns (groups: map<Bytes, seq<Finding>>)
    ensures FindingsGrouped(groups, findings, |findings|)
  {
    groups := map[];
    for i := 0 to |findings|
      invariant FindingsGrouped(groups, findings, i)
    {
      hide FindingsGrouped, FindingOwner;
      GroupFinding(groups, findings, i);
      var owner := FindingOwner(findings[i]);
      groups := groups[owner := Group(groups, owner) + [findings[i]]];
    }
  }

  function OptionalOperations(t: Text, operations: seq<Operation>): Bytes {
    if operations == [] then [] else t.hash(t.operations(operations))
  }

  function OptionalFindings(t: Text, findings: seq<Finding>): Bytes {
    if findings == [] then [] else t.hash(t.findings(findings))
  }

  function OptionalGovernance(t: Text, g: Option<Governance>): Bytes {
    if g.None? then [] else t.hash(t.governance(g.value))
  }

  /** The findings of a resource: those of the manifest and those of its snapshot. */
  ghost predicate IsFindingsDigest(t: Text, digest: Bytes, findings: seq<Finding>, own: seq<Finding>, id: Bytes) {
    exists all :: SortOf(ByKey(FindingKey), all, FindingsOf(findings, |findings|, id) + own)
                  && digest == OptionalFindings(t, all)
  }

  ghost predicate IsResource(t: Text, operations: seq<Operation>, findings: seq<Finding>, governance: Bytes,
                             r: ProjectedResource, st: State) {
    && r.selected == st.selected && r.structure == st.structure && r.dataset == st.data && r.governance == governance
    && (var owner := OperationOwner(r.identity.service, r.identity.id);
        r.operations == OptionalOperations(t, OperationsOf(operations, |operations|, owner)))
    && IsFindingsDigest(t, r.findings, findings, st.findings, r.identity.id)
  }

  function IdentityOf(r: ProjectedResource): Identity {
    r.identity
  }

  /** One entry for every identity, in the order of the keys. */
  ghost predicate AreResources(t: Text, operations: seq<Operation>, findings: seq<Finding>, governance: Bytes,
                               resources: seq<ProjectedResource>, states: map<Identity, State>) {
    && InKeyOrder(Map(IdentityOf, resources), states.Keys)
    && forall i | 0 <= i < |resources| ::
         resources[i].identity in states
             && IsResource(t, operations, findings, governance, resources[i], states[resources[i].identity])
  }

  ghost predicate InKeyOrder(ids: seq<Identity>, all: set<Identity>) {
    && Sorted(ByKey(Key), ids) && (forall id :: id in ids <==> id in all)
    && forall i, j | 0 <= i < j < |ids| :: ids[i] != ids[j]
  }

  // ----------------------------------------------------------- ProjectManifest

  ghost predicate IsProjection(t: Text, m: Manifest, p: Projection) {
    && p.source == m.source && p.target == m.target && IsGovernance(p.governance, m.governance)
    && AreOperations(p.operations, m.operations) && SortOf(ByKey(FindingKey), p.findings, m.findings)
    && (exists states :: States(t, m, |m.snapshots|, states)
          && AreResources(t, p.operations, p.findings, OptionalGovernance(t, p.governance), p.resources, states))
    && p.digest == t.hash(t.projection(p.(digest := [])))
  }

  /** Ranging over the identities of a map, in any order. */
  ghost predicate Lists(keys: set<Identity> -> seq<Identity>) {
    forall s ::
      && (forall k :: k in keys(s) <==> k in s)
      && forall i, j | 0 <= i < j < |keys(s)| :: keys(s)[i] != keys(s)[j]
  }

  method SortIdentities(ids: set<Identity>, keys: set<Identity> -> seq<Identity>) returns (sorted: seq<Identity>)
    requires Lists(keys)
    ensures InKeyOrder(sorted, ids)
  {
    sorted := SortSlice(Key, keys(ids));
    forall id ensures id in sorted <==> id in ids {
      assert id in multiset(sorted) <==> id in multiset(keys(ids));
    }
    StillOnce(keys(ids), sorted);
  }

  lemma StillOnce(a: seq<Identity>, b: seq<Identity>)
    requires multiset(a) == multiset(b) && forall i, j | 0 <= i < j < |a| :: a[i] != a[j]
    ensures forall i, j | 0 <= i < j < |b| :: b[i] != b[j]
  {
    forall i, j | 0 <= i < j < |b| ensures b[i] != b[j] {
      OnlyOnce(a, b[i]);
      Twice(b, i, j);
    }
  }

  lemma Twice(b: seq<Identity>, i: nat, j: nat)
    requires i < j < |b|
    ensures b[i] == b[j] ==> multiset(b)[b[i]] >= 2
  {
    if b[i] == b[j] {
      assert b == b[..i] + [b[i]] + b[i + 1..];
      assert b[i + 1..][j - i - 1] == b[j];
      assert b[j] in b[i + 1..];
    }
  }

  lemma {:induction false} OnlyOnce(a: seq<Identity>, x: Identity)
    requires forall i, j | 0 <= i < j < |a| :: a[i] != a[j]
    ensures multiset(a)[x] <= 1
  {
    if a != [] {
      assert a == [a[0]] + a[1..];
      forall i, j | 0 <= i < j < |a[1..]| ensures a[1..][i] != a[1..][j] {
        assert a[i + 1] != a[j + 1];
      }
      OnlyOnce(a[1..], x);
      if a[0] == x {
        assert x !in a[1..];
      }
    }
  }

  method ProjectResource(t: Text, operations: seq<Operation>, findings: seq<Finding>, governance: Bytes, id: Identity,
                         st: State, operationsBy: map<Bytes, seq<Operation>>, findingsBy: map<Bytes, seq<Finding>>)
    returns (r: ProjectedResource)
    requires OperationsGrouped(operationsBy, operations, |operations|)
             && FindingsGrouped(findingsBy, findings, |findings|)
    ensures r.identity == id && IsResource(t, operations, findings, governance, r, st)
  {
    var owner := OperationOwner(id.service, id.id);
    var own := Group(operationsBy, owner);
    var all := ProjectFindings(Group(findingsBy, id.id) + st.findings);
    r := ProjectedResource(id, st.selected, st.structure, st.data, governance, OptionalOperations(t, own),
                           OptionalFindings(t, all));
  }

  method ProjectEach(t: Text, operations: seq<Operation>, findings: seq<Finding>, governance: Bytes,
                     states: map<Identity, State>, ids: seq<Identity>)
    returns (resources: seq<ProjectedResource>)
    requires forall id | id in ids :: id in states
    ensures |resources| == |ids|
    ensures forall k | 0 <= k < |ids| ::
              resources[k].identity == ids[k]
                  && IsResource(t, operations, findings, governance, resources[k], states[ids[k]])
  {
    hide IsResource, OperationsOf, FindingsOf, OperationsGrouped, FindingsGrouped;
    var operationsBy := GroupOperations(operations);
    var findingsBy := GroupFindings(findings);
    resources := [];
    for i := 0 to |ids|
      invariant |resources| == i
      invariant forall k | 0 <= k < i ::
                  resources[k].identity == ids[k]
                      && IsResource(t, operations, findings, governance, resources[k], states[ids[k]])
    {
      assert ids[i] in ids;
      var r := ProjectResource(t, operations, findings, governance, ids[i], states[ids[i]], operationsBy, findingsBy);
      resources := resources + [r];
    }
  }

  method ProjectResources(t: Text, operations: seq<Operation>, findings: seq<Finding>, governance: Bytes,
                          states: map<Identity, State>, keys: set<Identity> -> seq<Identity>)
    returns (resources: seq<ProjectedResource>)
    requires Lists(keys)
    ensures AreResources(t, operations, findings, governance, resources, states)
  {
    hide IsResource, Lists;
    var ids := SortIdentities(states.Keys, keys);
    resources := ProjectEach(t, operations, findings, governance, states, ids);
    assert Map(IdentityOf, resources) == ids;
  }

  /** ProjectManifest on a manifest that has been validated. */
  method ProjectManifest(t: Text, m: Manifest, keys: set<Identity> -> seq<Identity>) returns (p: Option<Projection>)
    requires Digests(t) && Lists(keys)
    ensures p.Some? <==> !Unprojectable(t, m)
    ensures p.Some? ==> IsProjection(t, m, p.value)
  {
    hide Unprojectable, States, AreResources, AreOperations, IsGovernance, Lists;
    var ok, states := CollectStates(t, m);
    if !ok {
      return None;
    }
    var operations := ProjectOperations(m.operations);
    var findings := ProjectFindings(m.findings);
    var governance := ProjectGovernance(m.governance);
    var resources := ProjectResources(t, operations, findings, OptionalGovernance(t, governance), states, keys);
    var draft := Projection(m.source, m.target, resources, operations, findings, governance, []);
    var digest := t.hash(t.projection(draft));
    p := Some(draft.(digest := digest));
    assert p.value.(digest := []) == draft;
  }
}
