/** The content-addressed store of internal/captureledger/store.go: blobs are
    written in place and never replaced, indexes are replaced atomically. */
module Ledger {
  import opened ByteStrings
  import opened Mapping
  import opened Sorting
  import opened Sequences
  import opened Wrappers

  type Path = Bytes

  datatype Artifact = Artifact(path: Path, digest: Bytes, size: int)

  datatype Kind = InventoryV2 | Unproven | OtherKind

  datatype Freshness = Freshness(kind: Kind, digest: Bytes, records: int, bytes: int)

  datatype UnitOutcome = Reused | Refreshed | Invalidated

  datatype Unit = Unit(id: Bytes, freshness: Freshness, artifacts: seq<Artifact>, outcome: UnitOutcome)

  datatype Resource = Resource(descriptor: Bytes, definition: Bytes, units: seq<Unit>)

  datatype Generation = Generation(id: Bytes, source: Bytes, resources: seq<Resource>)

  /** Every file the store and its callers touch. */
  datatype Name = Blob(digest: Bytes, size: int) | Index(source: Bytes, descriptor: Bytes) | Staged(path: Path)

  type Files = map<Name, Bytes>

  /** The largest index that is read; an index of any size is written. */
  const MAX_GENERATION: nat := 67_108_864

  /** SHA-256, JSON and the field checks of Generation.Validate. */
  datatype Host = Host(
    hash: Bytes -> Bytes,
    validDigest: Bytes -> bool,
    safePath: Path -> bool,
    valid: Generation -> bool,
    encode: Generation -> Bytes,
    decode: Bytes -> Option<Generation>)

  ghost predicate Lawful(h: Host) {
    && (forall a, b :: h.hash(a) == h.hash(b) ==> a == b)
    && (forall a :: h.validDigest(h.hash(a)))
    && (forall g :: h.decode(h.encode(g)) == Some(g))
    && (forall g :: h.valid(g) ==> h.valid(Canonical(g)))
  }

  datatype Copy = Exists | Mismatch | Copied | Interrupted

  datatype Outcome = Done | Refused | Killed

  // ------------------------------------------------------------ generations

  predicate ArtifactLe(a: Artifact, b: Artifact) { Le(a.path, b.path) }

  predicate UnitLe(a: Unit, b: Unit) { Le(a.id, b.id) }

  predicate ResourceLe(a: Resource, b: Resource) { Le(a.descriptor, b.descriptor) }

  function CanonicalUnit(u: Unit): Unit {
    u.(artifacts := Sort(ArtifactLe, u.artifacts))
  }

  function CanonicalUnits(units: seq<Unit>): seq<Unit> {
    if units == [] then [] else [CanonicalUnit(units[0])] + CanonicalUnits(units[1..])
  }

  function CanonicalResource(r: Resource): Resource {
    r.(units := Sort(UnitLe, CanonicalUnits(r.units)))
  }

  function CanonicalResources(resources: seq<Resource>): seq<Resource> {
    if resources == [] then [] else [CanonicalResource(resources[0])] + CanonicalResources(resources[1..])
  }

  /** The sorted copy that CanonicalJSON encodes. */
  function Canonical(g: Generation): Generation {
    g.(resources := Sort(ResourceLe, CanonicalResources(g.resources)))
  }

  /** What is published for one resource. */
  function Slice(g: Generation, r: Resource): Generation {
    g.(resources := [r])
  }

  function UnitArtifacts(units: seq<Unit>): seq<Artifact> {
    if units == [] then [] else units[0].artifacts + UnitArtifacts(units[1..])
  }

  function ResourceArtifacts(resources: seq<Resource>): seq<Artifact> {
    if resources == [] then [] else UnitArtifacts(resources[0].units) + ResourceArtifacts(resources[1..])
  }

  /** An artifact that some unit of the generation names. */
  ghost predicate Names(g: Generation, a: Artifact) {
    exists r, u :: r in g.resources && u in r.units && a in u.artifacts
  }

  lemma {:induction false} UnitsNamed(units: seq<Unit>, a: Artifact)
    ensures a in UnitArtifacts(units) <==> exists u :: u in units && a in u.artifacts
  {
    if units != [] {
      UnitsNamed(units[1..], a);
      assert units == [units[0]] + units[1..];
    }
  }

  lemma {:induction false} ResourcesNamed(g: Generation, a: Artifact)
    ensures a in ResourceArtifacts(g.resources) <==> Names(g, a)
    decreases |g.resources|
  {
    if g.resources != [] {
      var r, rest := g.resources[0], g.(resources := g.resources[1..]);
      ResourcesNamed(rest, a);
      UnitsNamed(r.units, a);
      assert g.resources == [r] + rest.resources;
      if Names(g, a) {
        var r', u :| r' in g.resources && u in r'.units && a in u.artifacts;
        assert r' == r || r' in rest.resources;
      }
      if a in UnitArtifacts(r.units) {
        var u :| u in r.units && a in u.artifacts;
        assert r in g.resources;
      }
    }
  }

  lemma {:induction false} CanonicalUnitOf(units: seq<Unit>, v: Unit) returns (u: Unit)
    requires v in CanonicalUnits(units)
    ensures u in units && v == CanonicalUnit(u)
  {
    if v == CanonicalUnit(units[0]) {
      u := units[0];
    } else {
      u := CanonicalUnitOf(units[1..], v);
    }
  }

  /** Sorting for the canonical form names no new artifact. */
  lemma CanonicalNames(g: Generation, r: Resource, a: Artifact)
    requires Names(Canonical(Slice(g, r)), a)
    ensures a in UnitArtifacts(r.units)
  {
    var c := Canonical(Slice(g, r));
    var r', v :| r' in c.resources && v in r'.units && a in v.artifacts;
    SingleResource(g, r);
    SortMultiset(UnitLe, CanonicalUnits(r.units));
    assert v in multiset(r'.units) && v in CanonicalUnits(r.units);
    var u := CanonicalUnitOf(r.units, v);
    SortMultiset(ArtifactLe, u.artifacts);
    assert a in multiset(v.artifacts) && a in u.artifacts;
    UnitsNamed(r.units, a);
  }

  // --------------------------------------- generations read without their order

  datatype UnitContent = UnitContent(id: Bytes, freshness: Freshness, artifacts: multiset<Artifact>,
                                     outcome: UnitOutcome)

  datatype ResourceContent = ResourceContent(descriptor: Bytes, definition: Bytes, units: multiset<UnitContent>)

  datatype GenerationContent = GenerationContent(id: Bytes, source: Bytes, resources: multiset<ResourceContent>)

  ghost function UnitContentOf(u: Unit): UnitContent {
    UnitContent(u.id, u.freshness, multiset(u.artifacts), u.outcome)
  }

  ghost function ResourceContentOf(r: Resource): ResourceContent {
    ResourceContent(r.descriptor, r.definition, multiset(Map(UnitContentOf, r.units)))
  }

  ghost function GenerationContentOf(g: Generation): GenerationContent {
    GenerationContent(g.id, g.source, multiset(Map(ResourceContentOf, g.resources)))
  }

  /** Artifacts by path, units by ID. */
  ghost predicate Arranged(r: Resource) {
    && (forall i, j | 0 <= i < j < |r.units| :: Le(r.units[i].id, r.units[j].id))
    && forall u | u in r.units :: ByPath(u.artifacts)
  }

  ghost predicate ByPath(artifacts: seq<Artifact>) {
    forall i, j | 0 <= i < j < |artifacts| :: Le(artifacts[i].path, artifacts[j].path)
  }

  lemma LedgerOrders()
    ensures TotalPreorder(ArtifactLe) && TotalPreorder(UnitLe) && TotalPreorder(ResourceLe)
  {
    ByteOrder();
  }

  lemma {:induction false} SameUnitContents(units: seq<Unit>)
    ensures Map(UnitContentOf, CanonicalUnits(units)) == Map(UnitContentOf, units)
  {
    if units != [] {
      SortMultiset(ArtifactLe, units[0].artifacts);
      SameUnitContents(units[1..]);
    }
  }

  /** The canonical form of a resource has its units with all their artifacts. */
  lemma CanonicalResourceKeeps(r: Resource)
    ensures ResourceContentOf(CanonicalResource(r)) == ResourceContentOf(r) && Arranged(CanonicalResource(r))
  {
    var each := CanonicalUnits(r.units);
    LedgerOrders();
    SortSorts(UnitLe, each);
    MapPermuted(UnitContentOf, Sort(UnitLe, each), each);
    SameUnitContents(r.units);
    forall u | u in Sort(UnitLe, each) ensures ByPath(u.artifacts) {
      assert u in multiset(Sort(UnitLe, each)) && u in each;
      var v := CanonicalUnitOf(r.units, u);
      SortSorts(ArtifactLe, v.artifacts);
    }
  }

  lemma {:induction false} SameResourceContents(resources: seq<Resource>)
    ensures Map(ResourceContentOf, CanonicalResources(resources)) == Map(ResourceContentOf, resources)
    ensures forall r | r in CanonicalResources(resources) :: Arranged(r)
  {
    if resources != [] {
      CanonicalResourceKeeps(resources[0]);
      SameResourceContents(resources[1..]);
    }
  }

  /** The canonical form of a generation has everything it had, in one order. */
  lemma CanonicalKeeps(g: Generation)
    ensures GenerationContentOf(Canonical(g)) == GenerationContentOf(g)
    ensures forall r | r in Canonical(g).resources :: Arranged(r)
    ensures forall i, j | 0 <= i < j < |Canonical(g).resources| ::
              Le(Canonical(g).resources[i].descriptor, Canonical(g).resources[j].descriptor)
  {
    var each := CanonicalResources(g.resources);
    LedgerOrders();
    SortSorts(ResourceLe, each);
    SameResourceContents(g.resources);
    hide Sort, CanonicalResources, ResourceContentOf, Arranged;
    var sorted := Sort(ResourceLe, each);
    MapPermuted(ResourceContentOf, sorted, each);
    forall r | r in sorted ensures Arranged(r) {
      assert r in multiset(sorted) && r in each;
    }
  }

  /** Generations with the same content name the same artifacts. */
  lemma SameContentNames(g: Generation, k: Generation, a: Artifact)
    requires GenerationContentOf(g) == GenerationContentOf(k) && Names(g, a)
    ensures Names(k, a)
  {
    var r, u :| r in g.resources && u in r.units && a in u.artifacts;
    var s := Counterpart(ResourceContentOf, g.resources, k.resources, r);
    var v := Counterpart(UnitContentOf, r.units, s.units, u);
    assert a in multiset(u.artifacts) && a in v.artifacts;
  }

  /** The canonical form names exactly the artifacts of the generation. */
  lemma CanonicalNamesExactly(g: Generation, a: Artifact)
    ensures Names(Canonical(g), a) <==> Names(g, a)
  {
    hide Names, Canonical, GenerationContentOf;
    CanonicalKeeps(g);
    if Names(g, a) {
      SameContentNames(g, Canonical(g), a);
    }
    if Names(Canonical(g), a) {
      SameContentNames(Canonical(g), g, a);
    }
  }

  lemma SingleResource(g: Generation, r: Resource)
    ensures Canonical(Slice(g, r)).resources == [CanonicalResource(r)]
  {
    assert [r][1..] == [] && CanonicalResources([r]) == [CanonicalResource(r)];
    var one := [CanonicalResource(r)];
    assert one[1..] == [] && Sort(ResourceLe, one) == one;
  }

  // ------------------------------------------------------------------ state

  predicate Matches(h: Host, content: Bytes, a: Artifact) {
    |content| == a.size && h.hash(content) == a.digest
  }

  predicate WellFormed(h: Host, a: Artifact) {
    a.size >= 0 && h.validDigest(a.digest)
  }

  /** OpenArtifact would succeed. */
  predicate Available(h: Host, files: Files, a: Artifact) {
    && WellFormed(h, a) && Blob(a.digest, a.size) in files
    && Matches(h, files[Blob(a.digest, a.size)], a)
  }

  /** loadGeneration. */
  function LoadGeneration(h: Host, files: Files, source: Bytes, descriptor: Bytes): Option<Generation> {
    if Index(source, descriptor) !in files || |files[Index(source, descriptor)]| > MAX_GENERATION then None
    else
      var g := h.decode(files[Index(source, descriptor)]);
      if g.None? || !h.valid(g.value) || g.value.source != source || CountMatching(g.value.resources, descriptor) != 1
      then None else g
  }

  function CountMatching(resources: seq<Resource>, descriptor: Bytes): nat {
    if resources == [] then 0
    else (if resources[0].descriptor == descriptor then 1 else 0) + CountMatching(resources[1..], descriptor)
  }

  datatype Candidate = Candidate(generation: Bytes, resource: Resource)

  /** The resource is the only one of the generation with this descriptor. */
  ghost predicate IsCandidate(c: Candidate, g: Generation, descriptor: Bytes) {
    && c.generation == g.id && c.resource in g.resources && c.resource.descriptor == descriptor
    && forall r | r in g.resources && r.descriptor == descriptor :: r == c.resource
  }

  /** Every artifact named by an index that loads is available. */
  ghost predicate IndexSound(h: Host, files: Files, source: Bytes, descriptor: Bytes) {
    var g := LoadGeneration(h, files, source, descriptor);
    g.Some? ==> forall a | Names(g.value, a) :: Available(h, files, a)
  }

  ghost predicate Sound(h: Host, files: Files) {
    forall source, descriptor :: IndexSound(h, files, source, descriptor)
  }

  /** No blob that was there has changed or gone. */
  ghost predicate BlobsKept(before: Files, after: Files) {
    forall n: Name | n.Blob? && n in before :: n in after && after[n] == before[n]
  }

  ghost predicate SameIndexes(before: Files, after: Files) {
    forall n: Name | n.Index? :: (n in before <==> n in after) && (n in before ==> after[n] == before[n])
  }

  ghost predicate SameStaged(before: Files, after: Files) {
    forall n: Name | n.Staged? :: (n in before <==> n in after) && (n in before ==> after[n] == before[n])
  }

  /** Each index is wholly the old one or wholly the published one. */
  ghost predicate OldOrNew(h: Host, before: Files, after: Files, g: Generation) {
    forall n: Name | n.Index? ::
      || ((n in before <==> n in after) && (n in before ==> after[n] == before[n]))
      || (n in after && exists r :: r in g.resources && Published(h, after, g, r) && n == Index(g.source, r.descriptor))
  }

  ghost predicate Published(h: Host, files: Files, g: Generation, r: Resource) {
    Index(g.source, r.descriptor) in files && files[Index(g.source, r.descriptor)] == h.encode(Canonical(Slice(g, r)))
  }

  lemma SoundKept(h: Host, before: Files, after: Files)
    requires Sound(h, before) && BlobsKept(before, after) && SameIndexes(before, after)
    ensures Sound(h, after)
  {
    forall source, descriptor ensures IndexSound(h, after, source, descriptor) {
      assert IndexSound(h, before, source, descriptor);
      assert LoadGeneration(h, after, source, descriptor) == LoadGeneration(h, before, source, descriptor);
    }
  }

  lemma StaysAvailable(h: Host, files: Files, name: Name, content: Bytes, a: Artifact)
    requires Available(h, files, a) && name.Index?
    ensures Available(h, files[name := content], a)
  {
  }

  lemma OtherIndexSound(h: Host, files: Files, name: Name, content: Bytes, source: Bytes, descriptor: Bytes)
    requires IndexSound(h, files, source, descriptor) && name.Index? && name != Index(source, descriptor)
    ensures IndexSound(h, files[name := content], source, descriptor)
  {
    var after := files[name := content];
    var g := LoadGeneration(h, files, source, descriptor);
    assert LoadGeneration(h, after, source, descriptor) == g;
    if g.Some? {
      forall a | Names(g.value, a) ensures Available(h, after, a) {
        StaysAvailable(h, files, name, content, a);
      }
    }
  }

  lemma NewIndexSound(h: Host, files: Files, g: Generation, r: Resource)
    requires Lawful(h) && forall a | a in UnitArtifacts(r.units) :: Available(h, files, a)
    ensures var after := files[Index(g.source, r.descriptor) := h.encode(Canonical(Slice(g, r)))];
            IndexSound(h, after, g.source, r.descriptor)
  {
    var name, c := Index(g.source, r.descriptor), Canonical(Slice(g, r));
    var after := files[name := h.encode(c)];
    assert h.decode(after[name]) == Some(c);
    hide Names, Canonical, UnitArtifacts, Available;
    forall a | Names(c, a) ensures Available(h, after, a) {
      CanonicalNames(g, r, a);
      StaysAvailable(h, files, name, after[name], a);
    }
  }

  /** Writing an index keeps the store sound if its artifacts are available. */
  lemma SoundIndex(h: Host, files: Files, g: Generation, r: Resource)
    requires Lawful(h) && Sound(h, files)
    requires forall a | a in UnitArtifacts(r.units) :: Available(h, files, a)
    ensures Sound(h, files[Index(g.source, r.descriptor) := h.encode(Canonical(Slice(g, r)))])
  {
    var name, content := Index(g.source, r.descriptor), h.encode(Canonical(Slice(g, r)));
    NewIndexSound(h, files, g, r);
    hide IndexSound;
    var after := files[name := content];
    forall source, descriptor ensures IndexSound(h, after, source, descriptor) {
      if Index(source, descriptor) != name {
        assert IndexSound(h, files, source, descriptor);
        OtherIndexSound(h, files, name, content, source, descriptor);
      }
    }
  }

  /** The next capture loads the published resource with all its units and artifacts,
      arranged, exactly if its index is not too large to be read. */
  lemma PublishedLoads(h: Host, files: Files, g: Generation, r: Resource)
    requires Lawful(h) && Published(h, files, g, r) && h.valid(Slice(g, r))
    ensures LoadGeneration(h, files, g.source, r.descriptor) ==
            if |h.encode(Canonical(Slice(g, r)))| <= MAX_GENERATION then Some(Canonical(Slice(g, r))) else None
    ensures var loaded := LoadGeneration(h, files, g.source, r.descriptor);
            loaded.Some? ==>
              && loaded.value.id == g.id && loaded.value.source == g.source && |loaded.value.resources| == 1
              && ResourceContentOf(loaded.value.resources[0]) == ResourceContentOf(r)
              && Arranged(loaded.value.resources[0])
  {
    CanonicalResourceKeeps(r);
    SingleResource(g, r);
    var one := [CanonicalResource(r)];
    assert one[1..] == [] && CountMatching(one[1..], r.descriptor) == 0 && CountMatching(one, r.descriptor) == 1;
    assert h.valid(Canonical(Slice(g, r)));
    assert h.decode(h.encode(Canonical(Slice(g, r)))) == Some(Canonical(Slice(g, r)));
  }

  /** Why an artifact cannot be admitted. A blob of this name with other content,
      which an interrupted publisher leaves, is one of the reasons. */
  predicate Inadmissible(h: Host, files: Files, a: Artifact) {
    || !h.safePath(a.path) || Staged(a.path) !in files
    || (if Blob(a.digest, a.size) in files then !Available(h, files, a) else !Matches(h, files[Staged(a.path)], a))
  }

  /** Every blob that was added has the content its name promises. */
  ghost predicate NewBlobsGood(h: Host, before: Files, after: Files) {
    forall n: Name | n.Blob? && n in after && n !in before :: |after[n]| == n.size && h.hash(after[n]) == n.digest
  }

  /** An artifact that cannot be admitted later could not be admitted before. */
  lemma InadmissibleBefore(h: Host, before: Files, after: Files, a: Artifact)
    requires Lawful(h) && Inadmissible(h, after, a)
    requires BlobsKept(before, after) && SameStaged(before, after) && NewBlobsGood(h, before, after)
    ensures Inadmissible(h, before, a)
  {
    var n := Blob(a.digest, a.size);
    if n in after && n !in before {
      assert h.validDigest(h.hash(after[n]));
    }
  }

  lemma IndexStep(h: Host, before: Files, files: Files, g: Generation, r: Resource)
    requires OldOrNew(h, before, files, g) && r in g.resources
    ensures OldOrNew(h, before, files[Index(g.source, r.descriptor) := h.encode(Canonical(Slice(g, r)))], g)
  {
    var name := Index(g.source, r.descriptor);
    var after := files[name := h.encode(Canonical(Slice(g, r)))];
    forall n: Name | n.Index?
      ensures || ((n in before <==> n in after) && (n in before ==> after[n] == before[n]))
              || (n in after && exists q ::
                                q in g.resources && Published(h, after, g, q) && n == Index(g.source, q.descriptor))
    {
      if n == name {
        assert Published(h, after, g, r);
      } else if !((n in before <==> n in after) && (n in before ==> after[n] == before[n])) {
        var q :| q in g.resources && Published(h, files, g, q) && n == Index(g.source, q.descriptor);
        assert Published(h, after, g, q);
      }
    }
  }

  /** The first resources of a generation, as far as later ones do not replace
      their indexes, are published. */
  ghost predicate PublishedUpTo(h: Host, files: Files, g: Generation, n: nat) {
    forall i | 0 <= i < |g.resources| && i < n && Unrepeated(g, i, n) :: Published(h, files, g, g.resources[i])
  }

  ghost predicate Unrepeated(g: Generation, i: nat, n: nat) {
    forall j | i < j < n && j < |g.resources| :: g.resources[j].descriptor != g.resources[i].descriptor
  }

  lemma PublishedStep(h: Host, files: Files, g: Generation, n: nat)
    requires n < |g.resources| && PublishedUpTo(h, files, g, n)
    ensures var r := g.resources[n];
            PublishedUpTo(h, files[Index(g.source, r.descriptor) := h.encode(Canonical(Slice(g, r)))], g, n + 1)
  {
    var r := g.resources[n];
    var after := files[Index(g.source, r.descriptor) := h.encode(Canonical(Slice(g, r)))];
    forall i | 0 <= i < |g.resources| && i < n + 1 && Unrepeated(g, i, n + 1)
        ensures Published(h, after, g, g.resources[i]) {
      if i < n {
        assert Unrepeated(g, i, n);
        assert Published(h, files, g, g.resources[i]);
        assert g.resources[n].descriptor != g.resources[i].descriptor;
      }
    }
  }

  class Store {
    const host: Host
    var files: Files
    /** How many more steps happen before the process is killed. */
    var power: nat

    constructor (host: Host)
      ensures this.host == host && files == map[]
    {
      this.host, files, power := host, map[], 0;
    }

    method Tick() returns (alive: bool)
      modifies this`power
      ensures if alive then power == old(power) - 1 else power == old(power) == 0
    {
      alive := power > 0;
      if alive {
        power := power - 1;
      }
    }

    /** copyOpenVerified: creates the file exclusively, writes it in pieces and
        removes it again if it is not what was expected. */
    method CopyVerified(dst: Name, content: Bytes, expected: Artifact) returns (o: Copy)
      modifies this
      ensures o.Exists? <==> dst in old(files)
      ensures o.Exists? || o.Mismatch? ==> files == old(files)
      ensures o.Mismatch? ==> !Matches(host, content, expected)
      ensures o.Copied? ==> Matches(host, content, expected) && files == old(files)[dst := content]
      ensures o.Interrupted? ==> power == 0 && dst in files && files == old(files)[dst := files[dst]]
                                 && files[dst] <= content
      ensures power <= old(power)
    {
      if dst in files {
        return Exists;
      }
      ghost var before := files;
      files := files[dst := []];
      var n := 0;
      while n < |content|
        invariant n <= |content| && files == before[dst := content[..n]] && power <= old(power)
      {
        var alive := Tick();
        if !alive {
          return Interrupted;
        }
        var m: nat :| n < m <= |content|;
        files := files[dst := content[..m]];
        n := m;
      }
      assert content[..n] == content;
      var alive := Tick();
      if !alive {
        return Interrupted;
      }
      if |files[dst]| != expected.size || host.hash(files[dst]) != expected.digest {
        files := files - {dst};
        assert files == before;
        return Mismatch;
      }
      return Copied;
    }

    /** OpenArtifact: the blob is checked again on every use. */
    method OpenArtifact(a: Artifact) returns (content: Option<Bytes>)
      ensures content.Some? <==> Available(host, files, a)
      ensures content.Some? ==> content.value == files[Blob(a.digest, a.size)] && Matches(host, content.value, a)
    {
      if a.size < 0 || !host.validDigest(a.digest) || Blob(a.digest, a.size) !in files {
        return None;
      }
      var blob := files[Blob(a.digest, a.size)];
      if host.hash(blob) != a.digest || |blob| != a.size {
        return None;
      }
      return Some(blob);
    }

    /** admit: afterwards the blob is there, and no other file has changed. */
    method Admit(a: Artifact) returns (o: Outcome)
      requires Lawful(host)
      modifies this
      ensures o.Done? ==> Available(host, files, a)
      ensures o.Refused? <==> !o.Killed? && Inadmissible(host, old(files), a)
      ensures o.Refused? ==> files == old(files)
      ensures o.Killed? ==> power == 0
      ensures BlobsKept(old(files), files) && SameIndexes(old(files), files) && SameStaged(old(files), files)
      ensures !o.Killed? ==> NewBlobsGood(host, old(files), files)
      ensures power <= old(power)
    {
      if !host.safePath(a.path) || Staged(a.path) !in files {
        return Refused;
      }
      var copy := CopyVerified(Blob(a.digest, a.size), files[Staged(a.path)], a);
      match copy
      case Exists =>
        var existing := OpenArtifact(a);
        o := if existing.Some? then Done else Refused;
      case Mismatch => o := Refused;
      case Interrupted => o := Killed;
      case Copied => o := Done;
    }

    /** The loop of Publish over the artifacts of one unit. */
    method AdmitUnit(u: Unit) returns (o: Outcome)
      requires Lawful(host)
      modifies this
      ensures o.Done? ==> forall a | a in u.artifacts :: Available(host, files, a)
      ensures o.Refused? ==> exists a :: a in u.artifacts && Inadmissible(host, old(files), a)
      ensures o.Killed? ==> power == 0
      ensures BlobsKept(old(files), files) && SameIndexes(old(files), files) && SameStaged(old(files), files)
      ensures !o.Killed? ==> NewBlobsGood(host, old(files), files)
      ensures power <= old(power)
    {
      for i := 0 to |u.artifacts|
        invariant forall k | 0 <= k < i :: Available(host, files, u.artifacts[k])
        invariant BlobsKept(old(files), files) && SameIndexes(old(files), files) && SameStaged(old(files), files)
        invariant NewBlobsGood(host, old(files), files) && power <= old(power)
      {
        ghost var before := files;
        o := Admit(u.artifacts[i]);
        if !o.Done? {
          if o.Refused? {
            InadmissibleBefore(host, old(files), before, u.artifacts[i]);
          }
          return;
        }
      }
      o := Done;
    }

    method AdmitUnits(units: seq<Unit>) returns (o: Outcome)
      requires Lawful(host)
      modifies this
      ensures o.Done? ==> forall a | a in UnitArtifacts(units) :: Available(host, files, a)
      ensures o.Refused? ==> exists a :: a in UnitArtifacts(units) && Inadmissible(host, old(files), a)
      ensures o.Killed? ==> power == 0
      ensures BlobsKept(old(files), files) && SameIndexes(old(files), files) && SameStaged(old(files), files)
      ensures !o.Killed? ==> NewBlobsGood(host, old(files), files)
      ensures power <= old(power)
    {
      for i := 0 to |units|
        invariant forall k, a | 0 <= k < i && a in units[k].artifacts :: Available(host, files, a)
        invariant BlobsKept(old(files), files) && SameIndexes(old(files), files) && SameStaged(old(files), files)
        invariant NewBlobsGood(host, old(files), files) && power <= old(power)
      {
        ghost var before := files;
        o := AdmitUnit(units[i]);
        if !o.Done? {
          if o.Refused? {
            ghost var a :| a in units[i].artifacts && Inadmissible(host, before, a);
            InadmissibleBefore(host, old(files), before, a);
            UnitsNamed(units, a);
            assert units[i] in units;
          }
          return;
        }
        forall k, a | 0 <= k < i + 1 && a in units[k].artifacts ensures Available(host, files, a) {
          assert k < i ==> Available(host, before, a);
          assert k == i ==> a in units[i].artifacts;
        }
      }
      forall a | a in UnitArtifacts(units) ensures Available(host, files, a) {
        UnitsNamed(units, a);
      }
      o := Done;
    }

    method AdmitAll(g: Generation) returns (o: Outcome)
      requires Lawful(host)
      modifies this
      ensures o.Done? ==> forall a | Names(g, a) :: Available(host, files, a)
      ensures o.Refused? ==> exists a :: Names(g, a) && Inadmissible(host, old(files), a)
      ensures o.Killed? ==> power == 0
      ensures BlobsKept(old(files), files) && SameIndexes(old(files), files) && SameStaged(old(files), files)
      ensures power <= old(power)
    {
      for i := 0 to |g.resources|
        invariant forall k, a | 0 <= k < i && a in UnitArtifacts(g.resources[k].units) :: Available(host, files, a)
        invariant BlobsKept(old(files), files) && SameIndexes(old(files), files) && SameStaged(old(files), files)
        invariant NewBlobsGood(host, old(files), files) && power <= old(power)
      {
        ghost var before := files;
        var r := g.resources[i];
        o := AdmitUnits(r.units);
        if !o.Done? {
          if o.Refused? {
            ghost var a :| a in UnitArtifacts(r.units) && Inadmissible(host, before, a);
            InadmissibleBefore(host, old(files), before, a);
            UnitsNamed(r.units, a);
            assert r in g.resources;
          }
          return;
        }
        forall k, a | 0 <= k < i + 1 && a in UnitArtifacts(g.resources[k].units) ensures Available(host, files, a) {
          assert k < i ==> Available(host, before, a);
          assert k == i ==> a in UnitArtifacts(r.units);
        }
      }
      forall a | Names(g, a) ensures Available(host, files, a) {
        NamedIn(g, a);
      }
      o := Done;
    }

    /** Publish: every blob first, then one index after the other. */
    method Publish(g: Generation) returns (o: Outcome)
      requires Lawful(host) && Sound(host, files)
      modifies this
      ensures Sound(host, files)
      ensures BlobsKept(old(files), files) && SameStaged(old(files), files) && OldOrNew(host, old(files), files, g)
      ensures o.Done? ==> PublishedUpTo(host, files, g, |g.resources|)
      ensures o.Done? ==> forall a | Names(g, a) :: Available(host, files, a)
      ensures o.Refused? ==> || (exists a :: Names(g, a) && Inadmissible(host, old(files), a))
                             || (exists r :: r in g.resources && !host.valid(Slice(g, r)))
      ensures o.Killed? ==> power == 0
      ensures (exists a :: Names(g, a) && Incomplete(host, old(files), a)) ==> !o.Done?
    {
      hide Lawful, Sound, Names, Inadmissible, Canonical, UnitArtifacts, Incomplete;
      o := AdmitAll(g);
      SoundKept(host, old(files), files);
      if !o.Done? {
        return;
      }
      for i := 0 to |g.resources|
        invariant Sound(host, files) && OldOrNew(host, old(files), files, g) && PublishedUpTo(host, files, g, i)
        invariant BlobsKept(old(files), files) && SameStaged(old(files), files)
        invariant forall a | Names(g, a) :: Available(host, files, a)
      {
        var r := g.resources[i];
        if !host.valid(Slice(g, r)) {
          return Refused;
        }
        var alive := Tick();
        if !alive {
          return Killed;
        }
        IndexStep(host, old(files), files, g, r);
        PublishedStep(host, files, g, i);
        ResourceAvailable(host, files, g, i);
        SoundIndex(host, files, g, r);
        files := files[Index(g.source, r.descriptor) := host.encode(Canonical(Slice(g, r)))];
      }
      NoneIncomplete(host, old(files), files, g);
      o := Done;
    }

    /** loadGeneration: the index, fully checked. */
    method LoadIndex(source: Bytes, descriptor: Bytes) returns (g: Option<Generation>)
      ensures g == LoadGeneration(host, files, source, descriptor)
    {
      if Index(source, descriptor) !in files || |files[Index(source, descriptor)]| > MAX_GENERATION {
        return None;
      }
      g := host.decode(files[Index(source, descriptor)]);
      if g.None? || !host.valid(g.value) || g.value.source != source {
        return None;
      }
      var matched := 0;
      for i := 0 to |g.value.resources|
        invariant matched + CountMatching(g.value.resources[i..], descriptor)
                  == CountMatching(g.value.resources, descriptor)
      {
        if g.value.resources[i].descriptor == descriptor {
          matched := matched + 1;
        }
      }
      if matched != 1 {
        return None;
      }
    }

    /** LoadCandidates: the only resource of the generation with this descriptor. */
    method LoadCandidate(source: Bytes, descriptor: Bytes) returns (c: Option<Candidate>)
      ensures c.Some? <==> LoadGeneration(host, files, source, descriptor).Some?
      ensures c.Some? ==> IsCandidate(c.value, LoadGeneration(host, files, source, descriptor).value, descriptor)
    {
      var g := LoadIndex(source, descriptor);
      if g.None? {
        return None;
      }
      var resources := g.value.resources;
      var found: Option<Resource> := None;
      var several := false;
      ghost var n := 0;
      for i := 0 to |resources|
        invariant n + CountMatching(resources[i..], descriptor) == 1
        invariant (found.Some? <==> n >= 1) && (several <==> n >= 2)
        invariant found.Some? ==> found.value in resources && found.value.descriptor == descriptor
        invariant n <= 1 ==> forall k | 0 <= k < i && resources[k].descriptor == descriptor ::
                    found == Some(resources[k])
      {
        if resources[i].descriptor == descriptor {
          several, found, n := found.Some?, Some(resources[i]), n + 1;
        }
      }
      c := if several || found.None? then None else Some(Candidate(g.value.id, found.value));
    }

    /** Materialize: copies a blob to the capture's artifacts, checking it on the
        way, or accepts what an interrupted capture has already put there. A refusal
        changes nothing. */
    method Materialize(a: Artifact) returns (o: Outcome)
      modifies this
      ensures o.Done? ==> Staged(a.path) in files && Matches(host, files[Staged(a.path)], a)
      ensures o.Refused? ==> files == old(files)
      ensures o.Killed? ==> power == 0
      ensures o.Refused? <==> !o.Killed? && Immaterial(host, old(files), a)
      ensures forall n | n != Staged(a.path) ::
                (n in files <==> n in old(files)) && (n in files ==> files[n] == old(files)[n])
      ensures power <= old(power)
    {
      if !host.safePath(a.path) || Blob(a.digest, a.size) !in files {
        return Refused;
      }
      var copy := CopyVerified(Staged(a.path), files[Blob(a.digest, a.size)], a);
      match copy
      case Exists =>
        var content := files[Staged(a.path)];
        o := if host.hash(content) == a.digest && |content| == a.size then Done else Refused;
      case Mismatch => o := Refused;
      case Interrupted => o := Killed;
      case Copied => o := Done;
    }
  }

  lemma ResourceAvailable(h: Host, files: Files, g: Generation, i: nat)
    requires i < |g.resources| && forall a | Names(g, a) :: Available(h, files, a)
    ensures forall a | a in UnitArtifacts(g.resources[i].units) :: Available(h, files, a)
  {
    var r := g.resources[i];
    assert r in g.resources;
    forall a | a in UnitArtifacts(r.units) ensures Names(g, a) {
      UnitsNamed(r.units, a);
    }
  }

  /** Why a blob cannot be taken over into a capture. */
  predicate Immaterial(h: Host, files: Files, a: Artifact) {
    || !h.safePath(a.path) || Blob(a.digest, a.size) !in files
    || !Matches(h, if Staged(a.path) in files then files[Staged(a.path)] else files[Blob(a.digest, a.size)], a)
  }

  lemma NamedIn(g: Generation, a: Artifact)
    requires Names(g, a)
    ensures exists k :: 0 <= k < |g.resources| && a in UnitArtifacts(g.resources[k].units)
  {
    var r, u :| r in g.resources && u in r.units && a in u.artifacts;
    UnitsNamed(r.units, a);
    var k :| 0 <= k < |g.resources| && g.resources[k] == r;
  }

  /** A blob of this name has other content: an interrupted publisher left it. */
  predicate Incomplete(h: Host, files: Files, a: Artifact) {
    Blob(a.digest, a.size) in files && !Matches(h, files[Blob(a.digest, a.size)], a)
  }

  /** It is never mended. */
  lemma StaysIncomplete(h: Host, before: Files, after: Files, a: Artifact)
    requires Incomplete(h, before, a) && BlobsKept(before, after)
    ensures Incomplete(h, after, a) && !Available(h, after, a)
  {
  }

  lemma NoneIncomplete(h: Host, before: Files, after: Files, g: Generation)
    requires BlobsKept(before, after) && forall a | Names(g, a) :: Available(h, after, a)
    ensures forall a | Names(g, a) :: !Incomplete(h, before, a)
  {
    forall a | Names(g, a) && Incomplete(h, before, a) ensures !Available(h, after, a) {
      StaysIncomplete(h, before, after, a);
    }
  }

  /** What a caller may ask of the store. */
  datatype Request =
    | Publish(g: Generation, budget: nat)
    | Stage(path: Path, content: Option<Bytes>)
    | Materialize(a: Artifact, budget: nat)

  /** Any run of publications and captures, each killed after any number of steps:
      every index that loads names available blobs only, and no blob ever changes. */
  method Serve(store: Store, requests: seq<Request>)
    requires Lawful(store.host) && Sound(store.host, store.files)
    modifies store
    ensures Sound(store.host, store.files) && BlobsKept(old(store.files), store.files)
    ensures forall a | Incomplete(store.host, old(store.files), a) :: Incomplete(store.host, store.files, a)
  {
    for i := 0 to |requests|
      invariant Sound(store.host, store.files) && BlobsKept(old(store.files), store.files)
    {
      ghost var before := store.files;
      match requests[i] {
        case Publish(g, budget) =>
          store.power := budget;
          var _ := store.Publish(g);
        case Stage(path, content) =>
          store.files :=
            if content.Some? then store.files[Staged(path) := content.value] else store.files - {Staged(path)};
          SoundKept(store.host, before, store.files);
        case Materialize(a, budget) =>
          store.power := budget;
          var _ := store.Materialize(a);
          SoundKept(store.host, before, store.files);
      }
    }
  }
}
