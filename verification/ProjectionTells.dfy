/** What the digest of a projection tells of the manifest: everything but the order
    of its lists, the paths of its artifacts and how structures are written. */
module ProjectionTells {
  import opened ByteStrings
  import opened Identities
  import opened Mapping
  import opened Projections
  import opened ManifestProjection
  import opened ProjectionOrder
  import opened Sorting
  import opened Wrappers

  /** Texts and digests tell apart what they stand for. */
  ghost predicate Faithful(t: Text) {
    && Digests(t) && (forall a, b :: t.hash(a) == t.hash(b) ==> a == b)
    && (forall a, b :: t.data(a) == t.data(b) ==> a == b)
    && (forall a, b :: t.operations(a) == t.operations(b) ==> a == b)
    && (forall a, b :: t.findings(a) == t.findings(b) ==> a == b)
    && (forall a, b :: t.governance(a) == t.governance(b) ==> a == b)
    && (forall a, b :: t.projection(a) == t.projection(b) ==> a == b)
  }

  // ------------------------------------------------------------- the parts

  lemma GovernanceTells(p: Option<Governance>, g: Option<Governance>, h: Option<Governance>)
    requires IsGovernance(p, g) && IsGovernance(p, h)
    ensures SameGovernance(g, h)
  {
  }

  lemma SameOperation(p: Operation, o: Operation)
    requires IsOperation(p, o)
    ensures OperationContentOf(p) == OperationContentOf(o)
  {
  }

  lemma OperationsKeep(p: seq<Operation>, operations: seq<Operation>)
    requires AreOperations(p, operations)
    ensures multiset(Map(OperationContentOf, p)) == multiset(Map(OperationContentOf, operations))
  {
    hide OperationContentOf, IsOperation;
    var each :| EachOperation(each, operations) && SortOf(ByKey(OperationKey), p, each);
    forall i | 0 <= i < |each| ensures OperationContentOf(each[i]) == OperationContentOf(operations[i]) {
      SameOperation(each[i], operations[i]);
    }
    assert Map(OperationContentOf, each) == Map(OperationContentOf, operations);
    MapPermuted(OperationContentOf, p, each);
  }

  lemma ViewTells(v: DataView, d: Data, e: Data)
    requires IsDataView(v, d) && IsDataView(v, e)
    ensures DataContentOf(d) == DataContentOf(e)
  {
    if d.Dataset? {
      Factor(ViewChunk, ChunkContentOf, d.chunks, e.chunks);
    } else {
      Factor(ViewArtifact, ArtifactContentOf, d.artifacts, e.artifacts);
    }
  }

  lemma DataTells(t: Text, digest: Bytes, d: Data, e: Data)
    requires Faithful(t) && IsDataDigest(t, digest, d) && IsDataDigest(t, digest, e)
    ensures DataContentOf(d) == DataContentOf(e)
  {
    if !d.NoData? && !e.NoData? {
      var v :| IsDataView(v, d) && digest == t.hash(t.data(v));
      var u :| IsDataView(u, e) && digest == t.hash(t.data(u));
      assert t.data(v) == t.data(u);
      ViewTells(v, d, e);
    }
  }

  /** A state tells its snapshot. */
  lemma StateTells(t: Text, s: Snapshot, u: Snapshot, a: State, b: State)
    requires Faithful(t) && FromSnapshot(t, s, a) && FromSnapshot(t, u, b) && s.identity == u.identity
    requires a.structure == b.structure && a.data == b.data && multiset(a.findings) == multiset(b.findings)
    ensures SameSnapshot(t, s, u)
  {
    DataTells(t, a.data, s.data, u.data);
    assert t.canonical(s.structure).value == t.canonical(u.structure).value;
  }

  // --------------------------------------------------------- the resources

  /** What a projected resource tells of the state behind it. */
  lemma ResourceTells(t: Text, operations: seq<Operation>, findings: seq<Finding>, governance: Bytes,
                      r: ProjectedResource, a: State, b: State)
    requires Faithful(t) && IsResource(t, operations, findings, governance, r, a)
             && IsResource(t, operations, findings, governance, r, b)
    ensures Indistinct(a, b)
  {
    FindingsTells(t, r.findings, FindingsOf(findings, |findings|, r.identity.id), a.findings, b.findings, findings,
                  r.identity.id);
  }

  ghost predicate Indistinct(a: State, b: State) {
    && a.selected == b.selected && a.structure == b.structure && a.data == b.data
    && multiset(a.findings) == multiset(b.findings)
  }

  lemma FindingsTells(t: Text, digest: Bytes, shared: seq<Finding>, a: seq<Finding>, b: seq<Finding>,
                      findings: seq<Finding>, id: Bytes)
    requires Faithful(t) && shared == FindingsOf(findings, |findings|, id)
    requires IsFindingsDigest(t, digest, findings, a, id) && IsFindingsDigest(t, digest, findings, b, id)
    ensures multiset(a) == multiset(b)
  {
    var x :| SortOf(ByKey(FindingKey), x, shared + a) && digest == OptionalFindings(t, x);
    var y :| SortOf(ByKey(FindingKey), y, shared + b) && digest == OptionalFindings(t, y);
    OneOfDigest(t, x, y);
    hide Faithful, OptionalFindings, FindingKey, FindingsOf;
    Cancel(multiset(shared), multiset(a), multiset(b));
  }

  lemma OneOfDigest(t: Text, x: seq<Finding>, y: seq<Finding>)
    requires Faithful(t) && OptionalFindings(t, x) == OptionalFindings(t, y)
    ensures x == y
  {
  }

  lemma Cancel<T>(shared: multiset<T>, a: multiset<T>, b: multiset<T>)
    requires shared + a == shared + b
    ensures a == b
  {
    assert (shared + a) - shared == a && (shared + b) - shared == b;
  }

  lemma ResourcesTell(t: Text, operations: seq<Operation>, findings: seq<Finding>, governance: Bytes,
                      resources: seq<ProjectedResource>, a: map<Identity, State>, b: map<Identity, State>)
    requires Faithful(t) && AreResources(t, operations, findings, governance, resources, a)
    requires AreResources(t, operations, findings, governance, resources, b)
    ensures a.Keys == b.Keys && forall id | id in a :: Indistinct(a[id], b[id])
  {
    hide Faithful, IsResource, Indistinct;
    var ids := Map(IdentityOf, resources);
    forall id ensures id in a.Keys <==> id in b.Keys {
      assert id in ids <==> id in a.Keys;
    }
    forall id | id in a ensures Indistinct(a[id], b[id]) {
      assert id in ids;
      var i :| 0 <= i < |ids| && ids[i] == id;
      assert resources[i].identity == id;
      ResourceTells(t, operations, findings, governance, resources[i], a[id], b[id]);
    }
  }

  // ---------------------------------------------------------- the manifest

  lemma StatesCover(t: Text, m: Manifest, n: Manifest, a: map<Identity, State>, b: map<Identity, State>)
    requires Faithful(t) && States(t, m, |m.snapshots|, a) && States(t, n, |n.snapshots|, b)
    requires a.Keys == b.Keys && forall id | id in a :: Indistinct(a[id], b[id])
    ensures Covers(t, m, n)
  {
    hide Faithful, FromSnapshot, SameSnapshot;
    forall s | s in m.snapshots ensures exists u :: u in n.snapshots && SameSnapshot(t, s, u) {
      StateFromThis(t, m, a, s);
      var id := s.identity;
      HasStructure(t, s, a[id]);
      if !SeenBefore(n, |n.snapshots|, id) {
        SelectedState(t, n, b, id);
      }
      var u := StateFrom(t, n, b, id);
      StateTells(t, s, u, a[id], b[id]);
    }
  }

  lemma HasStructure(t: Text, s: Snapshot, a: State)
    requires Faithful(t) && FromSnapshot(t, s, a)
    ensures a.structure != []
  {
  }

  lemma StatesMatch(t: Text, m: Manifest, n: Manifest, a: map<Identity, State>, b: map<Identity, State>)
    requires Faithful(t) && States(t, m, |m.snapshots|, a) && States(t, n, |n.snapshots|, b)
    requires a.Keys == b.Keys && forall id | id in a :: Indistinct(a[id], b[id])
    ensures Matched(t, m, n)
  {
    StatesCover(t, m, n, a, b);
    StatesCover(t, n, m, b, a);
    hide Faithful, Covers;
    forall id ensures id in m.selected <==> id in n.selected {
      if id in a {
        SelectedState(t, m, a, id);
        SelectedState(t, n, b, id);
      }
    }
  }

  /** Manifests with the same projection have the same content. */
  lemma ProjectionTellsContent(t: Text, m: Manifest, n: Manifest, p: Projection)
    requires Faithful(t) && IsProjection(t, m, p) && IsProjection(t, n, p)
    ensures SameContent(t, m, n)
  {
    GovernanceTells(p.governance, m.governance, n.governance);
    OperationsKeep(p.operations, m.operations);
    OperationsKeep(p.operations, n.operations);
    var a :| States(t, m, |m.snapshots|, a)
             && AreResources(t, p.operations, p.findings, OptionalGovernance(t, p.governance), p.resources, a);
    var b :| States(t, n, |n.snapshots|, b)
             && AreResources(t, p.operations, p.findings, OptionalGovernance(t, p.governance), p.resources, b);
    hide Faithful, IsGovernance, AreOperations, AreResources, States, SameGovernance, Matched, Indistinct;
    ResourcesTell(t, p.operations, p.findings, OptionalGovernance(t, p.governance), p.resources, a, b);
    StatesMatch(t, m, n, a, b);
  }

  /** Two manifests have the same digest if and only if they have the same content. */
  lemma DigestTellsContent(t: Text, m: Manifest, p: Projection, n: Manifest, q: Projection)
    requires Faithful(t) && Tidy(m) && IsProjection(t, m, p) && IsProjection(t, n, q)
    ensures p.digest == q.digest <==> SameContent(t, m, n)
  {
    if p.digest == q.digest {
      assert t.projection(p.(digest := [])) == t.projection(q.(digest := []));
      assert p.(digest := []) == q.(digest := []);
      SameButDigest(p, q);
      ProjectionTellsContent(t, m, n, p);
    }
    if SameContent(t, m, n) {
      OrderDoesNotShow(t, m, p, n, q);
    }
  }

  lemma SameButDigest(p: Projection, q: Projection)
    requires p.(digest := []) == q.(digest := []) && p.digest == q.digest
    ensures p == q
  {
    assert p == p.(digest := []).(digest := p.digest);
  }

  // ------------------------------------------- what belongs to a resource

  /** The operations that are compared for a resource are those that name it. */
  lemma {:induction false} OwnOperations(operations: seq<Operation>, n: nat, id: Identity, o: Operation)
    requires n <= |operations| && Plain(id) && forall x | x in operations :: NUL !in x.service && NUL !in x.resourceId
    ensures o in OperationsOf(operations, n, OperationOwner(id.service, id.id))
            <==> o in operations[..n] && o.service == id.service && o.resourceId == id.id
  {
    hide OperationOwner;
    if n > 0 {
      var last := operations[n - 1];
      OwnOperations(operations, n - 1, id, o);
      assert operations[..n] == operations[..n - 1] + [last];
      assert last in operations;
      SameOwner(last, id);
    }
  }

  lemma SameOwner(o: Operation, id: Identity)
    requires Plain(id) && NUL !in o.service && NUL !in o.resourceId
    ensures OperationOwner(o.service, o.resourceId) == OperationOwner(id.service, id.id)
            <==> o.service == id.service && o.resourceId == id.id
  {
    var a, b := [o.service, o.resourceId], [id.service, id.id];
    var f := Fields(id);
    assert f[0] == id.service && f[2] == id.id;
    if OperationOwner(o.service, o.resourceId) == OperationOwner(id.service, id.id) {
      JoinInjective(a, b);
      assert a[0] == b[0] && a[1] == b[1];
    }
  }

  /** The findings of the manifest that are compared for a resource are those that name
      it. */
  lemma {:induction false} OwnFindings(findings: seq<Finding>, n: nat, id: Bytes, f: Finding)
    requires n <= |findings|
    ensures f in FindingsOf(findings, n, id) <==> f in findings[..n] && f.resource == id
  {
    if n > 0 {
      OwnFindings(findings, n - 1, id, f);
      assert findings[..n] == findings[..n - 1] + [findings[n - 1]];
    }
  }

  // ----------------------------------------------------- what a projection says

  /** The digest of the operations that name the resource; empty if there are none. */
  ghost predicate TellsOperations(t: Text, digest: Bytes, operations: seq<Operation>, id: Identity) {
    exists own :: AreOwn(own, operations, id) && digest == if own == [] then [] else t.hash(t.operations(own))
  }

  ghost predicate AreOwn(own: seq<Operation>, operations: seq<Operation>, id: Identity) {
    forall o :: o in own <==> o in operations && o.service == id.service && o.resourceId == id.id
  }

  /** The digest of the findings that name the resource and of those of its snapshot. */
  ghost predicate TellsFindings(t: Text, digest: Bytes, findings: seq<Finding>, own: seq<Finding>, id: Bytes) {
    exists all :: AreRelated(all, findings, own, id) && digest == if all == [] then [] else t.hash(t.findings(all))
  }

  ghost predicate AreRelated(all: seq<Finding>, findings: seq<Finding>, own: seq<Finding>, id: Bytes) {
    forall f :: f in all <==> (f in findings && f.resource == id) || f in own
  }

  /** A projected resource says whether it was selected, and has the digests of its
      snapshot, of its operations and findings, and of the governance. */
  ghost predicate Says(t: Text, m: Manifest, p: Projection, r: ProjectedResource) {
    && (r.selected <==> r.identity in m.selected)
    && r.governance == (if p.governance.None? then [] else t.hash(t.governance(p.governance.value)))
    && TellsOperations(t, r.operations, p.operations, r.identity)
    && if !SeenBefore(m, |m.snapshots|, r.identity)
       then r.structure == [] && r.dataset == [] && TellsFindings(t, r.findings, p.findings, [], r.identity.id)
       else exists s :: s in m.snapshots && s.identity == r.identity && SaysSnapshot(t, p, r, s)
  }

  ghost predicate SaysSnapshot(t: Text, p: Projection, r: ProjectedResource, s: Snapshot) {
    && t.canonical(s.structure).Some? && r.structure == t.hash(t.canonical(s.structure).value)
    && IsDataDigest(t, r.dataset, s.data) && TellsFindings(t, r.findings, p.findings, s.findings, r.identity.id)
  }

  lemma OwnExactly(operations: seq<Operation>, id: Identity)
    requires Plain(id) && forall o | o in operations :: NUL !in o.service && NUL !in o.resourceId
    ensures AreOwn(OperationsOf(operations, |operations|, OperationOwner(id.service, id.id)), operations, id)
  {
    hide OperationOwner, OperationsOf, Plain;
    assert operations[..|operations|] == operations;
    forall o ensures o in OperationsOf(operations, |operations|, OperationOwner(id.service, id.id))
                     <==> o in operations && o.service == id.service && o.resourceId == id.id
    {
      OwnOperations(operations, |operations|, id, o);
    }
  }

  lemma OwnDigests(t: Text, operations: seq<Operation>, r: ProjectedResource)
    requires Plain(r.identity) && forall o | o in operations :: NUL !in o.service && NUL !in o.resourceId
    requires r.operations == OptionalOperations(t, OperationsOf(operations, |operations|,
                                                                OperationOwner(r.identity.service, r.identity.id)))
    ensures TellsOperations(t, r.operations, operations, r.identity)
  {
    hide OperationOwner, OperationsOf, Plain;
    OwnExactly(operations, r.identity);
  }

  lemma SameMembers<T>(a: seq<T>, b: seq<T>, x: T)
    requires multiset(a) == multiset(b)
    ensures x in a <==> x in b
  {
    assert x in a <==> x in multiset(a);
    assert x in b <==> x in multiset(b);
  }

  lemma FindingDigests(t: Text, digest: Bytes, findings: seq<Finding>, own: seq<Finding>, other: seq<Finding>,
                       id: Bytes)
    requires IsFindingsDigest(t, digest, findings, own, id) && multiset(own) == multiset(other)
    ensures TellsFindings(t, digest, findings, other, id)
  {
    hide FindingKey, FindingsOf;
    var named := FindingsOf(findings, |findings|, id);
    var all :| SortOf(ByKey(FindingKey), all, named + own) && digest == OptionalFindings(t, all);
    assert findings[..|findings|] == findings;
    forall f ensures f in all <==> (f in findings && f.resource == id) || f in other {
      OwnFindings(findings, |findings|, id, f);
      SameMembers(all, named + own, f);
      SameMembers(own, other, f);
    }
    assert AreRelated(all, findings, other, id);
  }

  lemma ResourceSays(t: Text, m: Manifest, p: Projection, states: map<Identity, State>, r: ProjectedResource)
    requires States(t, m, |m.snapshots|, states) && r.identity in states && Plain(r.identity)
    requires IsResource(t, p.operations, p.findings, OptionalGovernance(t, p.governance), r, states[r.identity])
    requires forall o | o in p.operations :: NUL !in o.service && NUL !in o.resourceId
    ensures Says(t, m, p, r)
  {
    hide States, TellsOperations, TellsFindings, IsDataDigest, IsFindingsDigest, Plain, SeenBefore;
    var id, st := r.identity, states[r.identity];
    OwnDigests(t, p.operations, r);
    SelectedState(t, m, states, id);
    if SeenBefore(m, |m.snapshots|, id) {
      var s := StateFrom(t, m, states, id);
      FindingDigests(t, r.findings, p.findings, st.findings, s.findings, id.id);
      assert SaysSnapshot(t, p, r, s);
    } else {
      FindingDigests(t, r.findings, p.findings, st.findings, [], id.id);
    }
  }

  lemma ResourcesSay(t: Text, m: Manifest, p: Projection, states: map<Identity, State>)
    requires Tidy(m) && States(t, m, |m.snapshots|, states)
    requires AreResources(t, p.operations, p.findings, OptionalGovernance(t, p.governance), p.resources, states)
    requires forall o | o in p.operations :: NUL !in o.service && NUL !in o.resourceId
    ensures forall r | r in p.resources :: r.identity in states && Says(t, m, p, r)
  {
    KnownIsPlain(t, m, states);
    hide Tidy, States, IsResource, Plain, Says, InKeyOrder;
    forall r | r in p.resources ensures r.identity in states && Says(t, m, p, r) {
      ResourceSays(t, m, p, states, r);
    }
  }

  lemma EveryResource(resources: seq<ProjectedResource>, ids: set<Identity>)
    requires InKeyOrder(Map(IdentityOf, resources), ids)
    ensures forall id :: (exists r :: r in resources && r.identity == id) <==> id in ids
  {
    forall id ensures (exists r :: r in resources && r.identity == id) <==> id in ids {
      var all := Map(IdentityOf, resources);
      assert id in all <==> id in ids;
      if id in all {
        var r := MapMember(IdentityOf, resources, id);
      }
      if r :| r in resources && r.identity == id {
        var i :| 0 <= i < |resources| && resources[i] == r;
        assert all[i] == id;
      }
    }
  }

  /** What a projection says of a manifest: its source and target, all its operations and
      findings, and every selected or captured resource with its own digests. */
  lemma ProjectionSays(t: Text, m: Manifest, p: Projection)
    requires Tidy(m) && IsProjection(t, m, p)
    ensures p.source == m.source && p.target == m.target && SameGovernance(p.governance, m.governance)
    ensures multiset(Map(OperationContentOf, p.operations)) == multiset(Map(OperationContentOf, m.operations))
    ensures multiset(p.findings) == multiset(m.findings)
    ensures forall id :: (exists r :: r in p.resources && r.identity == id)
                         <==> id in m.selected || SeenBefore(m, |m.snapshots|, id)
    ensures forall r | r in p.resources :: Says(t, m, p, r)
  {
    OperationsKeep(p.operations, m.operations);
    PlainOwners(m, p);
    var states :| States(t, m, |m.snapshots|, states)
                  && AreResources(t, p.operations, p.findings, OptionalGovernance(t, p.governance), p.resources,
                                  states);
    hide Tidy, IsResource, InKeyOrder, Says, AreOperations, OperationContentOf, SeenBefore;
    EveryResource(p.resources, states.Keys);
    StatesKnow(t, m, states);
    hide States;
    ResourcesSay(t, m, p, states);
  }

  lemma StatesKnow(t: Text, m: Manifest, states: map<Identity, State>)
    requires States(t, m, |m.snapshots|, states)
    ensures forall id :: id in states <==> id in m.selected || SeenBefore(m, |m.snapshots|, id)
  {
  }

  lemma PlainOwner(o: Operation, p: Operation)
    requires IsOperation(p, o) && TidyOperation(o)
    ensures NUL !in p.service && NUL !in p.resourceId
  {
    var f := [o.id, o.stage, o.service, o.resourceId, o.action];
    assert f[2] == p.service && f[3] == p.resourceId;
  }

  lemma PlainOwners(m: Manifest, p: Projection)
    requires Tidy(m) && AreOperations(p.operations, m.operations)
    ensures forall o | o in p.operations :: NUL !in o.service && NUL !in o.resourceId
  {
    var each :| EachOperation(each, m.operations) && SortOf(ByKey(OperationKey), p.operations, each);
    assert forall o | o in m.operations :: TidyOperation(o);
    hide Tidy, OperationKey, IsOperation, TidyOperation;
    forall o | o in p.operations ensures NUL !in o.service && NUL !in o.resourceId {
      SameMembers(p.operations, each, o);
      var i :| 0 <= i < |each| && each[i] == o;
      assert m.operations[i] in m.operations;
      PlainOwner(m.operations[i], o);
    }
  }
}
