/** An S3 capture that may be killed at any step and takes packs over from the
    ledger (internal/services/s3/data.go). */
module S3Capture {
  import opened ByteStrings
  import opened Packing
  import opened Sequences
  import opened Manifest
  import opened DynamoChunks
  import opened Ledger
  import opened S3Packs
  import opened S3Inventory
  import opened S3Contents
  import opened S3Freshness
  import opened S3Units
  import opened Wrappers

  /** The two artifacts of a pack. */
  datatype PackRefs = PackRefs(data: Artifact, index: Artifact)

  type PackChunk = Chunk<PackRefs>

  /** s3Checkpoint, without the identity of the capture. */
  datatype Checkpoint = Checkpoint(prefix: nat, token: Bytes, inventoryBytes: nat, complete: bool, records: nat,
                                   sourceBytes: nat, processedRecords: nat, processedOffset: nat,
                                   chunks: seq<PackChunk>)

  /** A capture: the bucket and what its packs look like. `fetch` gives the archive
      and the index of a pack, so they are determined by the listed entries. */
  datatype World = World(listing: Config, host: Host, fetch: seq<Entry> -> (Bytes, Bytes),
                         dataPath: nat -> Path, indexPath: nat -> Path, isData: Path -> bool, isIndex: Path -> bool,
                         unitId: nat -> Bytes, definition: Bytes)

  datatype Progress = Dead | Erred | Alive

  datatype Outcome = Crashed | Failed | Finished(dataset: Dataset<PackRefs>, units: seq<Unit>)

  ghost predicate Sane(w: World) {
    && Readable(w.listing.codec) && w.listing.prefixes != [] && Textual(w.host)
    && (forall key :: NUL !in w.listing.bucket.metadata(key))
    && PathsDistinct(w)
  }

  ghost predicate PathsDistinct(w: World) {
    && (forall i, j :: w.dataPath(i) != w.indexPath(j))
    && (forall i, j :: i != j ==> w.dataPath(i) != w.dataPath(j) && w.indexPath(i) != w.indexPath(j))
    && (forall i :: w.isData(w.dataPath(i)) && !w.isIndex(w.dataPath(i)) && w.isIndex(w.indexPath(i)))
    && (forall i, j :: i != j ==> w.unitId(i) != w.unitId(j))
    && (forall i :: IsPack(w.unitId(i)))
  }

  // ------------------------------------------------- the result, as a function

  function Ref(h: Host, path: Path, content: Bytes): Artifact {
    Artifact(path, h.hash(content), |content|)
  }

  function FreshRefs(w: World, number: nat, pack: seq<Entry>): PackRefs {
    PackRefs(Ref(w.host, w.dataPath(number), w.fetch(pack).0), Ref(w.host, w.indexPath(number), w.fetch(pack).1))
  }

  /** What capturing pack number `number` afresh gives. */
  function FreshChunk(w: World, number: nat, pack: seq<Entry>): PackChunk {
    Chunk(FreshRefs(w, number, pack), |pack|, Total(SizeOf, pack))
  }

  function FreshChunks(w: World, packs: seq<seq<Entry>>): (r: seq<PackChunk>)
    ensures |r| == |packs|
  {
    seq(|packs|, i requires 0 <= i < |packs| => FreshChunk(w, i + 1, packs[i]))
  }

  function DatasetOf(w: World, entries: seq<Entry>): Dataset<PackRefs> {
    Dataset(|entries|, Total(SizeOf, entries), FreshChunks(w, Packs(PackRule, entries)))
  }

  /** The archive and the index of a pack are where they belong. */
  ghost predicate PackStaged(w: World, files: Files, number: nat, pack: seq<Entry>) {
    && Staged(w.dataPath(number)) in files && files[Staged(w.dataPath(number))] == w.fetch(pack).0
    && Staged(w.indexPath(number)) in files && files[Staged(w.indexPath(number))] == w.fetch(pack).1
  }

  ghost predicate PacksStaged(w: World, files: Files, packs: seq<seq<Entry>>) {
    forall i | 0 <= i < |packs| :: PackStaged(w, files, i + 1, packs[i])
  }

  lemma FreshChunksAppend(w: World, packs: seq<seq<Entry>>, pack: seq<Entry>)
    ensures FreshChunks(w, packs + [pack]) == FreshChunks(w, packs) + [FreshChunk(w, |packs| + 1, pack)]
  {
  }

  lemma {:induction false} ChunkTotals(w: World, packs: seq<seq<Entry>>)
    ensures ChunkRecords(FreshChunks(w, packs)) == |Flatten(packs)|
    ensures ChunkBytes(FreshChunks(w, packs)) == Total(SizeOf, Flatten(packs))
    decreases |packs|
  {
    if packs != [] {
      var front, last := packs[..|packs| - 1], packs[|packs| - 1];
      assert packs == front + [last];
      ChunkTotals(w, front);
      FreshChunksAppend(w, front, last);
      var c := FreshChunk(w, |front| + 1, last);
      ChunksSplit(FreshChunks(w, front), [c]);
      assert [c][1..] == [];
      FlattenAppend(front, last);
      TotalSplit(SizeOf, Flatten(front), last);
    }
  }

  /** The dataset of a capture passes the manifest's check: its packs concatenate
      to the inventory, and the totals are exact. */
  lemma DatasetIsValid(w: World, entries: seq<Entry>)
    ensures TotalsMatch(DatasetOf(w, entries))
    ensures Flatten(Packs(PackRule, entries)) == entries
    ensures forall k | 0 <= k < |Packs(PackRule, entries)| :: GoodPack(PackRule, Packs(PackRule, entries)[k])
  {
    PacksPartition(PackRule, entries);
    ChunkTotals(w, Packs(PackRule, entries));
  }

  // ---------------------------------------------------------- honest ledgers

  /** A reusable unit was recorded for some listed entries, and names the artifacts
      that capturing them gives. */
  ghost predicate HonestUnit(w: World, number: nat, u: Unit) {
    u.freshness.kind == InventoryV2 && u.outcome != Invalidated ==>
      exists entries :: Recorded(w, number, u, entries)
  }

  ghost predicate Recorded(w: World, number: nat, u: Unit, entries: seq<Entry>) {
    && Proven(entries) && PlainMetadata(entries) && u.freshness == FreshnessOf(w.host, entries)
    && forall a | a in u.artifacts ::
       a == FreshRefs(w, number, entries).data || a == FreshRefs(w, number, entries).index
  }

  ghost predicate Honest(w: World, units: seq<Unit>) {
    forall u, number | u in units && u.id == w.unitId(number) :: HonestUnit(w, number, u)
  }

  /** Reuse agrees with fresh capture: if the digests agree, the recorded artifacts
      are those of the listed pack. */
  lemma ReuseIsFresh(w: World, number: nat, u: Unit, pack: seq<Entry>, data: Artifact, index: Artifact)
    requires Sane(w) && HonestUnit(w, number, u) && PlainMetadata(pack)
    requires u.outcome != Invalidated && u.freshness.kind == InventoryV2
    requires u.freshness.digest == FreshnessOf(w.host, pack).digest
    requires data in u.artifacts && w.isData(data.path) && !w.isIndex(data.path)
    requires index in u.artifacts && w.isIndex(index.path)
    ensures PackRefs(data, index) == FreshRefs(w, number, pack)
  {
    var entries :| Recorded(w, number, u, entries);
    FreshnessInjective(w.host, entries, pack);
    assert PathsDistinct(w);
  }

  // --------------------------------------------------------------- checkpoints

  ghost function CheckpointOf(w: World, s: Listing, done: seq<seq<Entry>>): Checkpoint {
    var text := InventoryText(w.listing.codec, s.entries);
    var before := InventoryText(w.listing.codec, Flatten(done));
    Checkpoint(s.prefix, s.token, |text|, s.complete, |s.entries|, Total(SizeOf, s.entries),
               |Flatten(done)|, |before|, FreshChunks(w, done))
  }

  datatype Snapshot = Snapshot(listing: Listing, done: seq<seq<Entry>>)

  /** A checkpoint on disk stands for a listing that the uninterrupted capture
      reaches and for its first packs, and the inventory begins with that listing. */
  ghost predicate Stored(w: World, inventory: Bytes, c: Checkpoint, p: Snapshot) {
    && Reached(w.listing, p.listing) && p.done <= Packs(PackRule, p.listing.entries)
    && (p.done != [] ==> p.listing.complete) && c == CheckpointOf(w, p.listing, p.done)
    && InventoryText(w.listing.codec, p.listing.entries) <= inventory
    && (p.listing.complete ==> inventory == InventoryText(w.listing.codec, p.listing.entries))
  }

  /** Whatever was interrupted: the inventory begins with exactly the entries that
      the checkpoint counts, they are within the limits of the capture, and the
      packs done so far are the first ones, with exact totals. */
  lemma CheckpointDescribesInventory(w: World, inventory: Bytes, c: Checkpoint, p: Snapshot)
    requires Sane(w) && Stored(w, inventory, c, p)
    ensures c.inventoryBytes <= |inventory|
            && inventory[..c.inventoryBytes] == InventoryText(w.listing.codec, p.listing.entries)
    ensures c.records == |p.listing.entries| && c.sourceBytes == Total(SizeOf, p.listing.entries)
    ensures WithinLimits(w.listing, p.listing.entries)
    ensures ChunkRecords(c.chunks) == c.processedRecords <= c.records && ChunkBytes(c.chunks) <= c.sourceBytes
  {
    ReachedKeeps(w.listing, p.listing);
    PartOfTotals(w, p.listing.entries, p.done);
    hide Sane, Packs, FreshChunks, Total, Reached;
  }

  lemma PartOfTotals(w: World, entries: seq<Entry>, done: seq<seq<Entry>>)
    requires done <= Packs(PackRule, entries)
    ensures ChunkRecords(FreshChunks(w, done)) == |Flatten(done)| <= |entries|
    ensures ChunkBytes(FreshChunks(w, done)) <= Total(SizeOf, entries)
  {
    ChunkTotals(w, done);
    DoneIsPrefix(entries, done);
    hide Packs, FreshChunks;
    var rest := entries[|Flatten(done)|..];
    assert entries == Flatten(done) + rest;
    TotalSplit(SizeOf, Flatten(done), rest);
  }

  // ---------------------------------------------------------- listing a page

  /** The loop over the objects of a listing page. */
  method ListObjects(cfg: Config, cp: Checkpoint, objects: seq<Object>, ghost entries: seq<Entry>)
    returns (next: Checkpoint, buffer: Bytes, stop: bool)
    requires cp.records == |entries| && cp.sourceBytes == Total(SizeOf, entries)
    ensures stop == AddObjects(cfg, entries, objects).1
    ensures var all := AddObjects(cfg, entries, objects).0;
            && InventoryText(cfg.codec, all) == InventoryText(cfg.codec, entries) + buffer
            && next == cp.(inventoryBytes := cp.inventoryBytes + |buffer|, records := |all|,
                           sourceBytes := Total(SizeOf, all))
  {
    next, buffer, stop := cp, [], false;
    ghost var all := entries;
    ghost var total := AddObjects(cfg, entries, objects);
    assert InventoryText(cfg.codec, entries) + [] == InventoryText(cfg.codec, entries);
    for i := 0 to |objects|
      invariant AddObjects(cfg, all, objects[i..]) == total && !stop
      invariant InventoryText(cfg.codec, all) == InventoryText(cfg.codec, entries) + buffer
      invariant next == cp.(inventoryBytes := cp.inventoryBytes + |buffer|, records := |all|,
                            sourceBytes := Total(SizeOf, all))
    {
      var o := objects[i];
      AddStep(cfg, all, objects, i);
      if !cfg.limits.full && next.records >= cfg.limits.maxObjects {
        stop := true;
        return;
      }
      if !cfg.limits.full && o.size > cfg.limits.maxObjectBytes {
        continue;
      }
      if o.size < 0 || (!cfg.limits.full && next.sourceBytes + o.size > cfg.limits.maxTotalBytes) {
        stop := true;
        return;
      }
      var entry := EntryOf(cfg, o);
      var line := LineOf(cfg.codec, entry);
      OneEntryMore(cfg, entries, all, buffer, entry);
      buffer, all := buffer + line, all + [entry];
      next := next.(inventoryBytes := next.inventoryBytes + |line|, records := next.records + 1,
                    sourceBytes := next.sourceBytes + entry.size);
    }
  }

  lemma AddStep(cfg: Config, all: seq<Entry>, objects: seq<Object>, i: nat)
    requires i < |objects|
    ensures AddObjects(cfg, all, objects[i..]) ==
            match FateOf(cfg, |all|, Total(SizeOf, all), objects[i])
            case Stops => (all, true)
            case Skipped => AddObjects(cfg, all, objects[i + 1..])
            case Added => AddObjects(cfg, all + [EntryOf(cfg, objects[i])], objects[i + 1..])
  {
    assert objects[i..][1..] == objects[i + 1..];
  }

  lemma OneEntryMore(cfg: Config, entries: seq<Entry>, all: seq<Entry>, buffer: Bytes, e: Entry)
    requires InventoryText(cfg.codec, all) == InventoryText(cfg.codec, entries) + buffer
    ensures InventoryText(cfg.codec, all + [e]) == InventoryText(cfg.codec, entries) + (buffer + LineOf(cfg.codec, e))
    ensures Total(SizeOf, all + [e]) == Total(SizeOf, all) + e.size
  {
    InventoryAppend(cfg.codec, all, e);
    TotalAppend(SizeOf, all, e);
  }

  // -------------------------------------------------------------- one pack

  /** Only the artifacts of pack number `number` have changed. */
  ghost predicate OnlyPack(w: World, before: Files, after: Files, number: nat) {
    forall n | n != Staged(w.dataPath(number)) && n != Staged(w.indexPath(number)) ::
      (n in before <==> n in after) && (n in before ==> after[n] == before[n])
  }

  lemma OthersStaged(w: World, before: Files, after: Files, packs: seq<seq<Entry>>, number: nat)
    requires Sane(w) && PacksStaged(w, before, packs) && OnlyPack(w, before, after, number) && number > |packs|
    ensures PacksStaged(w, after, packs)
  {
    assert PathsDistinct(w);
    forall i | 0 <= i < |packs| ensures PackStaged(w, after, i + 1, packs[i]) {
      assert PackStaged(w, before, i + 1, packs[i]);
    }
  }

  lemma OneMoreStaged(w: World, files: Files, packs: seq<seq<Entry>>, pack: seq<Entry>)
    requires PacksStaged(w, files, packs) && PackStaged(w, files, |packs| + 1, pack)
    ensures PacksStaged(w, files, packs + [pack])
  {
  }

  /** A file that matches the reference to some content is that content. */
  lemma MatchesOnly(w: World, content: Bytes, path: Path, expected: Bytes)
    requires Sane(w) && Matches(w.host, content, Ref(w.host, path, expected))
    ensures content == expected
  {
    assert w.host.hash(content) == w.host.hash(expected);
  }

  /** s3PackFreshness. */
  method PackFreshness(h: Host, entries: seq<Entry>) returns (f: Freshness)
    ensures f == FreshnessOf(h, entries)
  {
    hide Row, Version;
    var text: Bytes := [];
    var complete := true;
    var size := 0;
    for i := 0 to |entries|
      invariant text + Lines.Text(RowsOf(h, entries[i..])) == Lines.Text(RowsOf(h, entries))
      invariant size + Total(SizeOf, entries[i..]) == Total(SizeOf, entries)
      invariant complete == Proven(entries[..i])
    {
      FreshnessStep(h, entries, i, text);
      if entries[i].metadata == [] {
        complete := false;
      }
      text := text + Row(h, entries[i]) + [NEWLINE];
      size := size + entries[i].size;
    }
    assert entries[..|entries|] == entries && text + [] == text;
    f := Freshness(if complete then InventoryV2 else Unproven, h.hash(text), |entries|, size);
  }

  lemma FreshnessStep(h: Host, entries: seq<Entry>, i: nat, text: Bytes)
    requires i < |entries|
    ensures text + Lines.Text(RowsOf(h, entries[i..])) ==
            text + Row(h, entries[i]) + [NEWLINE] + Lines.Text(RowsOf(h, entries[i + 1..]))
    ensures Total(SizeOf, entries[i..]) == entries[i].size + Total(SizeOf, entries[i + 1..])
    ensures Proven(entries[..i + 1]) <==> Proven(entries[..i]) && entries[i].metadata != []
  {
    assert entries[i..][1..] == entries[i + 1..];
    assert entries[..i + 1] == entries[..i] + [entries[i]];
    var row, rest := Row(h, entries[i]), RowsOf(h, entries[i + 1..]);
    assert RowsOf(h, entries[i..]) == [row] + rest && ([row] + rest)[1..] == rest;
    assert text + (row + [NEWLINE] + Lines.Text(rest)) == text + row + [NEWLINE] + Lines.Text(rest);
  }

  /** How many of the artifacts satisfy p. */
  function CountOf(artifacts: seq<Artifact>, p: Artifact -> bool): nat {
    if artifacts == [] then 0
    else CountOf(artifacts[..|artifacts| - 1], p) + if p(artifacts[|artifacts| - 1]) then 1 else 0
  }

  function IsIndexIn(w: World): Artifact -> bool { (a: Artifact) => w.isIndex(a.path) }

  function IsDataIn(w: World): Artifact -> bool { (a: Artifact) => !w.isIndex(a.path) && w.isData(a.path) }

  /** The artifacts so far: at most one of a kind, and then which. */
  ghost predicate Only(artifacts: seq<Artifact>, p: Artifact -> bool, found: Option<Artifact>) {
    && CountOf(artifacts, p) == (if found.Some? then 1 else 0)
    && (found.Some? ==> found.value in artifacts && p(found.value))
  }

  lemma CountNext(artifacts: seq<Artifact>, i: nat, p: Artifact -> bool)
    requires i < |artifacts|
    ensures CountOf(artifacts[..i + 1], p) == CountOf(artifacts[..i], p) + if p(artifacts[i]) then 1 else 0
  {
    assert artifacts[..i + 1][..i] == artifacts[..i];
  }

  lemma {:induction false} CountGrows(artifacts: seq<Artifact>, i: nat, p: Artifact -> bool)
    requires i <= |artifacts|
    ensures CountOf(artifacts[..i], p) <= CountOf(artifacts, p)
    decreases |artifacts| - i
  {
    if i == |artifacts| {
      assert artifacts[..i] == artifacts;
    } else {
      CountNext(artifacts, i, p);
      CountGrows(artifacts, i + 1, p);
    }
  }

  /** s3UnitArtifacts: one archive and one index, or nothing exactly if there is not
      one of each. */
  method PackArtifacts(w: World, u: Unit) returns (refs: Option<PackRefs>)
    ensures refs.Some? <==> CountOf(u.artifacts, IsDataIn(w)) == 1 && CountOf(u.artifacts, IsIndexIn(w)) == 1
    ensures refs.Some? ==> && refs.value.data in u.artifacts && w.isData(refs.value.data.path)
                           && !w.isIndex(refs.value.data.path)
                           && refs.value.index in u.artifacts && w.isIndex(refs.value.index.path)
  {
    var data: Option<Artifact>, index: Option<Artifact> := None, None;
    for i := 0 to |u.artifacts|
      invariant Only(u.artifacts[..i], IsDataIn(w), data) && Only(u.artifacts[..i], IsIndexIn(w), index)
    {
      var a := u.artifacts[i];
      CountNext(u.artifacts, i, IsDataIn(w));
      CountNext(u.artifacts, i, IsIndexIn(w));
      CountGrows(u.artifacts, i + 1, IsDataIn(w));
      CountGrows(u.artifacts, i + 1, IsIndexIn(w));
      if w.isIndex(a.path) {
        if index.Some? {
          return None;
        }
        index := Some(a);
      } else if w.isData(a.path) {
        if data.Some? {
          return None;
        }
        data := Some(a);
      }
    }
    assert u.artifacts[..|u.artifacts|] == u.artifacts;
    refs := if data.None? || index.None? then None else Some(PackRefs(data.value, index.value));
  }

  // -------------------------------------------------------- between two packs

  /** What the packs done so far leave. */
  ghost function Left(entries: seq<Entry>, done: seq<seq<Entry>>): seq<Entry>
    requires done <= Packs(PackRule, entries)
  {
    DoneIsPrefix(entries, done);
    entries[|Flatten(done)|..]
  }

  lemma DoneIsPrefix(entries: seq<Entry>, done: seq<seq<Entry>>)
    requires done <= Packs(PackRule, entries)
    ensures Flatten(done) <= entries
    ensures Packs(PackRule, entries)[|done|..] == Packs(PackRule, entries[|Flatten(done)|..])
  {
    assert done == Packs(PackRule, entries)[..|done|];
    PacksResume(PackRule, entries, |done|);
  }

  /** The reader that captureData places at ProcessedOffset delivers what is left. */
  lemma ReaderAtOffset(c: Codec, entries: seq<Entry>, done: seq<seq<Entry>>)
    requires done <= Packs(PackRule, entries)
    ensures |InventoryText(c, Flatten(done))| <= |InventoryText(c, entries)|
    ensures InventoryText(c, entries)[|InventoryText(c, Flatten(done))|..] == InventoryText(c, Left(entries, done))
  {
    DoneIsPrefix(entries, done);
    var n := |Flatten(done)|;
    assert entries == Flatten(done) + entries[n..];
    InventorySplit(c, Flatten(done), entries[n..]);
  }

  lemma NextPack(entries: seq<Entry>, done: seq<seq<Entry>>, pack: seq<Entry>)
    requires done <= Packs(PackRule, entries) && Left(entries, done) != []
    requires pack == Left(entries, done)[..PackLength(PackRule, Left(entries, done))]
    ensures pack != [] && done + [pack] <= Packs(PackRule, entries)
    ensures Left(entries, done + [pack]) == Left(entries, done)[|pack|..]
    ensures Flatten(done + [pack]) == Flatten(done) + pack
  {
    DoneIsPrefix(entries, done);
    var packs := Packs(PackRule, entries);
    assert packs[|done|..][0] == pack;
    assert done + [pack] == packs[..|done| + 1];
    FlattenAppend(done, pack);
  }

  lemma AllDone(entries: seq<Entry>, done: seq<seq<Entry>>)
    requires done <= Packs(PackRule, entries)
    ensures Left(entries, done) == [] <==> |Flatten(done)| == |entries|
    ensures Left(entries, done) == [] ==> done == Packs(PackRule, entries)
  {
    DoneIsPrefix(entries, done);
    if Left(entries, done) == [] {
      assert Packs(PackRule, entries)[|done|..] == [];
      assert done == Packs(PackRule, entries)[..|done|];
    }
  }

  /** The checkpoint after one more pack. */
  lemma CheckpointStep(w: World, s: Listing, done: seq<seq<Entry>>, pack: seq<Entry>, consumed: nat)
    requires Flatten(done + [pack]) == Flatten(done) + pack && consumed == |InventoryText(w.listing.codec, pack)|
    ensures var cp := CheckpointOf(w, s, done);
            CheckpointOf(w, s, done + [pack]) ==
            cp.(chunks := cp.chunks + [FreshChunk(w, |done| + 1, pack)],
                processedRecords := cp.processedRecords + |pack|, processedOffset := cp.processedOffset + consumed)
  {
    InventorySplit(w.listing.codec, Flatten(done), pack);
    FreshChunksAppend(w, done, pack);
  }

  lemma PackIsPlain(w: World, s: Listing, pack: seq<Entry>)
    requires Sane(w) && Reached(w.listing, s) && forall e | e in pack :: e in s.entries
    ensures PlainMetadata(pack)
  {
    ReachedKeeps(w.listing, s);
    forall e | e in pack ensures NUL !in e.metadata {
      assert e in s.entries;
      assert e.metadata == w.listing.bucket.metadata(e.key);
    }
  }

  // ------------------------------------------------------------- candidates

  ghost predicate HonestMap(w: World, units: map<Bytes, Unit>) {
    forall id, number | id in units && id == w.unitId(number) :: units[id].id == id && HonestUnit(w, number, units[id])
  }

  /** The candidate units by their ID. */
  method CandidateUnits(w: World, candidate: Option<Resource>) returns (units: map<Bytes, Unit>)
    requires Usable(w, candidate) ==> Honest(w, candidate.value.units)
    ensures HonestMap(w, units)
  {
    units := map[];
    if !Usable(w, candidate) {
      return;
    }
    var all := candidate.value.units;
    for i := 0 to |all|
      invariant forall id | id in units :: units[id].id == id && units[id] in all
    {
      units := units[all[i].id := all[i]];
    }
    assert HonestMap(w, units);
  }

  predicate Verified(h: Host, files: Files, a: Artifact) {
    Staged(a.path) in files && Matches(h, files[Staged(a.path)], a)
  }

  /** The integrity check of every resume. */
  method CheckChunks(h: Host, files: Files, chunks: seq<PackChunk>) returns (ok: bool)
    ensures ok <==> forall k | 0 <= k < |chunks| ::
              Verified(h, files, chunks[k].data.data) && Verified(h, files, chunks[k].data.index)
  {
    for i := 0 to |chunks|
      invariant forall k | 0 <= k < i ::
                  Verified(h, files, chunks[k].data.data) && Verified(h, files, chunks[k].data.index)
    {
      if !Verified(h, files, chunks[i].data.data) || !Verified(h, files, chunks[i].data.index) {
        return false;
      }
    }
    ok := true;
  }

  /** Some download fails before both artifacts are written. */
  ghost predicate Undelivered(delivers: nat -> nat) {
    exists n :: delivers(n) < 2
  }

  ghost predicate UndeliveredIn(delivers: (nat, nat) -> nat, run: nat) {
    exists n :: delivers(run, n) < 2
  }

  /** Staged packs pass the integrity check. */
  lemma StagedVerifies(w: World, files: Files, done: seq<seq<Entry>>)
    requires Sane(w) && PacksStaged(w, files, done)
    ensures forall k | 0 <= k < |done| ::
              Verified(w.host, files, FreshChunks(w, done)[k].data.data)
                  && Verified(w.host, files, FreshChunks(w, done)[k].data.index)
  {
    hide Sane, Verified, PackStaged, FreshChunk;
    forall k | 0 <= k < |done|
      ensures Verified(w.host, files, FreshChunks(w, done)[k].data.data)
              && Verified(w.host, files, FreshChunks(w, done)[k].data.index)
    {
      PackVerifies(w, files, k + 1, done[k]);
    }
  }

  lemma PackVerifies(w: World, files: Files, number: nat, pack: seq<Entry>)
    requires PackStaged(w, files, number, pack)
    ensures Verified(w.host, files, FreshChunk(w, number, pack).data.data)
    ensures Verified(w.host, files, FreshChunk(w, number, pack).data.index)
  {
  }

  /** One honest unit for each pack, with the evidence of the pack. */
  ghost predicate HonestUnits(w: World, units: seq<Unit>, packs: seq<seq<Entry>>) {
    |units| == |packs| && forall i | 0 <= i < |packs| :: UnitOf(w, i + 1, units[i], packs[i])
  }

  ghost predicate UnitOf(w: World, number: nat, u: Unit, pack: seq<Entry>) {
    u.id == w.unitId(number) && HonestUnit(w, number, u) && u.freshness == FreshnessOf(w.host, pack)
  }

  lemma OneMoreUnit(w: World, units: seq<Unit>, packs: seq<seq<Entry>>, u: Unit, pack: seq<Entry>)
    requires HonestUnits(w, units, packs) && UnitOf(w, |packs| + 1, u, pack)
    ensures HonestUnits(w, units + [u], packs + [pack])
  {
  }

  lemma HonestUnitsAreHonest(w: World, units: seq<Unit>, packs: seq<seq<Entry>>, missing: seq<Unit>)
    requires Sane(w) && HonestUnits(w, units, packs) && forall u | u in missing :: u.id == MISSING
    ensures Honest(w, units + missing)
  {
    assert PathsDistinct(w);
    MissingIsNoPack();
    forall u, number | u in units + missing && u.id == w.unitId(number) ensures HonestUnit(w, number, u) {
      assert u in units;
      var i :| 0 <= i < |packs| && units[i] == u;
      assert number == i + 1;
    }
  }

  lemma UnitCounts(w: World, number: nat, u: Unit, pack: seq<Entry>)
    requires Sane(w) && UnitOf(w, number, u, pack)
    ensures IsPack(u.id) && u.freshness.records == |pack|
  {
    assert PathsDistinct(w);
  }

  /** The units count the objects of the listing. */
  lemma {:induction false} UnitsCount(w: World, units: seq<Unit>, packs: seq<seq<Entry>>)
    requires Sane(w) && HonestUnits(w, units, packs)
    ensures PackRecords(units) == |Flatten(packs)|
    decreases |packs|
  {
    hide Sane, UnitOf;
    if packs == [] {
      assert units == [];
    } else {
      var n := |packs| - 1;
      UnitCounts(w, n + 1, units[n], packs[n]);
      UnitsCount(w, units[..n], packs[..n]);
      assert units == units[..n] + [units[n]] && packs == packs[..n] + [packs[n]];
      PackRecordsAppend(units[..n], units[n]);
      FlattenAppend(packs[..n], packs[n]);
    }
  }

  /** What a finished capture leaves in the ledger: honest units that count its
      objects, and one more exactly if the candidate counted more of them. */
  ghost predicate UnitsReport(w: World, units: seq<Unit>, records: int, candidate: Option<Resource>) {
    && Honest(w, units) && PackRecords(units) == records
    && var previous := if Usable(w, candidate) then PackRecords(candidate.value.units) else 0;
       && ((exists u :: u in units && u.id == MISSING) <==> records < previous)
       && forall u | u in units && u.id == MISSING :: SaysMissing(w, u, previous, records)
  }

  /** The unit says how many objects fewer there are, and its digest tells the numbers. */
  predicate SaysMissing(w: World, u: Unit, previous: int, records: int) {
    && u.freshness.records == previous - records > 0 && u.outcome == Invalidated && u.artifacts == []
    && records >= 0 && u.freshness.digest == w.host.hash(Itoa(previous) + [NUL] + Itoa(records))
  }

  /** The candidate was captured under the same definition. */
  predicate Usable(w: World, candidate: Option<Resource>) {
    candidate.Some? && candidate.value.definition == w.definition
  }

  lemma NoneMissing(w: World, units: seq<Unit>, packs: seq<seq<Entry>>)
    requires Sane(w) && HonestUnits(w, units, packs)
    ensures forall u | u in units :: u.id != MISSING
  {
    MissingIsNoPack();
    assert PathsDistinct(w);
    forall u | u in units ensures u.id != MISSING {
      var i :| 0 <= i < |packs| && units[i] == u;
      assert UnitOf(w, i + 1, units[i], packs[i]);
    }
  }

  lemma ReportUnits(w: World, candidate: Option<Resource>, units: seq<Unit>, packs: seq<seq<Entry>>, missing: seq<Unit>)
    requires Sane(w) && HonestUnits(w, units, packs) && |missing| <= 1
    requires var previous := if Usable(w, candidate) then PackRecords(candidate.value.units) else 0;
             missing != [] <==> |Flatten(packs)| < previous && candidate.Some?
    requires missing != [] ==>
               && missing[0].id == MISSING
               && SaysMissing(w, missing[0], PackRecords(candidate.value.units), |Flatten(packs)|)
    ensures UnitsReport(w, units + missing, |Flatten(packs)|, candidate)
  {
    hide Sane, HonestUnits, Honest, SaysMissing, PackRecords, Flatten;
    HonestUnitsAreHonest(w, units, packs, missing);
    UnitsCount(w, units, packs);
    MissingIsNoPack();
    NoneMissing(w, units, packs);
    var previous := if Usable(w, candidate) then PackRecords(candidate.value.units) else 0;
    OneMissing(w, units, missing, previous, |Flatten(packs)|);
    if missing == [] {
      assert units + missing == units;
    } else {
      assert missing == [missing[0]];
      PackRecordsAppend(units, missing[0]);
    }
  }

  lemma OneMissing(w: World, units: seq<Unit>, missing: seq<Unit>, previous: int, records: int)
    requires |missing| <= 1 && (missing != [] <==> records < previous) && forall u | u in units :: u.id != MISSING
    requires missing != [] ==> missing[0].id == MISSING && SaysMissing(w, missing[0], previous, records)
    ensures (exists u :: u in units + missing && u.id == MISSING) <==> records < previous
    ensures forall u | u in units + missing && u.id == MISSING :: SaysMissing(w, u, previous, records)
  {
    hide SaysMissing;
    if missing != [] {
      assert missing[0] in units + missing;
    }
  }

  /** A checkpoint is only replaced by one that stands for more. */
  ghost predicate Onward(before: Option<Checkpoint>, p: Snapshot, after: Option<Checkpoint>, q: Snapshot) {
    before.Some? ==> after.Some? && p.listing.entries <= q.listing.entries && p.done <= q.done
  }

  /** A listing page takes nothing back. */
  lemma ListingGrows(cfg: Config, s: Listing)
    requires s.prefix < |cfg.prefixes| && ListStep(cfg, s).Some?
    ensures s.entries <= ListStep(cfg, s).value.entries
  {
    var page := cfg.bucket.list(cfg.prefixes[s.prefix], s.token).value;
    var k := AddsExactly(cfg, s.entries, page.objects);
  }

  /** Both artifacts can be taken over from the ledger. */
  predicate InLedger(h: Host, files: Files, refs: PackRefs) {
    !Immaterial(h, files, refs.data) && !Immaterial(h, files, refs.index)
  }

  /** The unit was captured when the pack was the same, and its artifacts are there. */
  ghost predicate IsFresh(w: World, files: Files, candidate: Option<Unit>, number: nat, pack: seq<Entry>) {
    && candidate.Some? && candidate.value.outcome != Invalidated && Proven(pack)
    && candidate.value.freshness == FreshnessOf(w.host, pack)
    && CountOf(candidate.value.artifacts, IsDataIn(w)) == 1 && CountOf(candidate.value.artifacts, IsIndexIn(w)) == 1
    && InLedger(w.host, files, FreshRefs(w, number, pack))
  }

  class Capture {
    const w: World
    const store: Store
    /** inventory.ndjson */
    var inventory: Bytes
    var checkpoint: Option<Checkpoint>
    /** What the checkpoint stands for. */
    ghost var snapshot: Snapshot

    ghost predicate Valid()
      reads this, store
    {
      && Sane(w) && store.host == w.host
      && (checkpoint.Some? ==> Stored(w, inventory, checkpoint.value, snapshot)
                               && PacksStaged(w, store.files, snapshot.done))
    }

    /** The process is between two listing pages. */
    ghost predicate Listed(cp: Checkpoint, s: Listing)
      reads this
    {
      && Reached(w.listing, s) && cp == CheckpointOf(w, s, [])
      && inventory == InventoryText(w.listing.codec, s.entries)
      && (checkpoint.Some? ==> snapshot.done == []
                               && InventoryText(w.listing.codec, snapshot.listing.entries) <= inventory
                               && !snapshot.listing.complete)
    }

    constructor (w: World, store: Store)
      requires Sane(w) && store.host == w.host
      ensures Valid() && checkpoint == None && this.w == w && this.store == store
    {
      this.w, this.store := w, store;
      inventory, checkpoint := [], None;
    }

    /** Flush and sync. Whatever had been flushed when the process is killed stays
        behind the listed entries. */
    method Flush(buffer: Bytes, ghost s: Listing) returns (alive: bool)
      requires Valid() && inventory == InventoryText(w.listing.codec, s.entries)
      requires checkpoint.Some? ==> snapshot.done == [] && !snapshot.listing.complete
      modifies this`inventory, store`power
      ensures Valid() && store.power <= old(store.power)
      ensures if alive then inventory == old(inventory) + buffer && store.power < old(store.power) else store.power == 0
    {
      alive := store.Tick();
      var torn: Bytes := *;
      inventory := inventory + if alive then buffer else torn;
    }

    /** The checkpoint is the last one that was due. */
    ghost predicate Saved(cp: Checkpoint, s: Listing, done: seq<seq<Entry>>)
      reads this
    {
      checkpoint == Some(cp) && snapshot == Snapshot(s, done)
    }

    /** saveS3Checkpoint while the bucket is listed. */
    method SaveListing(cp: Checkpoint, ghost t: Listing) returns (alive: bool)
      requires Valid() && Reached(w.listing, t) && cp == CheckpointOf(w, t, [])
      requires inventory == InventoryText(w.listing.codec, t.entries)
      modifies this`checkpoint, this`snapshot, store`power
      ensures Valid() && store.power <= old(store.power)
      ensures if alive then Saved(cp, t, [])
              else store.power == 0 && checkpoint == old(checkpoint) && snapshot == old(snapshot)
    {
      alive := store.Tick();
      if alive {
        checkpoint, snapshot := Some(cp), Snapshot(t, []);
      }
    }

    /** One turn of buildInventory. */
    method ListOnePage(cp: Checkpoint, ghost s: Listing) returns (o: Progress, next: Checkpoint, ghost t: Listing)
      requires Valid() && Listed(cp, s) && !s.complete
      modifies this, store`power
      ensures Valid() && store.power <= old(store.power)
      ensures o.Alive? ==> s.prefix < |w.listing.prefixes| && ListStep(w.listing, s) == Some(t)
                           && store.power < old(store.power)
      ensures o.Alive? ==> Saved(next, t, []) && next == CheckpointOf(w, t, [])
      ensures !o.Alive? ==> checkpoint == old(checkpoint) && snapshot == old(snapshot)
      ensures o.Alive? ==> inventory == InventoryText(w.listing.codec, t.entries) && Reached(w.listing, t)
      ensures o.Erred? ==> s.prefix < |w.listing.prefixes| && ListStep(w.listing, s).None?
      ensures o.Dead? ==> store.power == 0
    {
      next, t := cp, s;
      S3Inventory.ReachedNext(w.listing, s);
      var page := w.listing.bucket.list(w.listing.prefixes[cp.prefix], cp.token);
      if page.None? {
        return Erred, next, t;
      }
      var stop, buffer;
      next, buffer, stop := AfterPage(w, cp, page.value, s);
      t := ListStep(w.listing, s).value;
      var alive := Flush(buffer, s);
      if alive {
        alive := SaveListing(next, t);
      }
      o := if alive then Alive else Dead;
    }

    /** buildInventory: continues the listing where the checkpoint stands. */
    method BuildInventory(cp: Checkpoint, ghost s: Listing) returns (o: Progress, last: Checkpoint, ghost t: Listing)
      requires Valid() && Reached(w.listing, s) && !s.complete && cp == CheckpointOf(w, s, [])
      requires if checkpoint.Some? then snapshot == Snapshot(s, []) else s == Start
      modifies this, store`power
      ensures Valid() && store.power <= old(store.power)
      ensures o.Alive? ==> Saved(last, t, []) && t.complete
      ensures Onward(old(checkpoint), old(snapshot), checkpoint, snapshot)
      ensures o.Erred? ==> ListingErrs(w.listing)
      ensures o.Dead? ==> store.power == 0
    {
      last, t := cp, s;
      inventory := if cp.inventoryBytes <= |inventory| then inventory[..cp.inventoryBytes] else inventory;
      assert InventoryText(w.listing.codec, s.entries) <= inventory;
      while !last.complete
        invariant Valid() && store.power <= old(store.power) && last.complete == t.complete
        invariant if t.complete then Saved(last, t, []) else Listed(last, t)
        invariant checkpoint.Some? ==> snapshot == Snapshot(t, [])
        invariant Onward(old(checkpoint), old(snapshot), checkpoint, snapshot)
        decreases store.power, !last.complete
      {
        ghost var before := t;
        o, last, t := ListOnePage(last, t);
        if !o.Alive? {
          return;
        }
        ListingGrows(w.listing, before);
      }
      o := Alive;
    }

    /** capturePack: removes what is in the way and downloads the pack; each artifact
        appears whole. `delivered` says how many of the two are written before the
        download fails. */
    method CapturePack(number: nat, pack: seq<Entry>, delivered: nat) returns (o: Progress, chunk: PackChunk)
      requires Sane(w)
      modifies store
      ensures o.Alive? ==> chunk == FreshChunk(w, number, pack) && PackStaged(w, store.files, number, pack)
      ensures OnlyPack(w, old(store.files), store.files, number)
      ensures store.power <= old(store.power) && (o.Dead? ==> store.power == 0) && (o.Erred? ==> delivered < 2)
    {
      assert PathsDistinct(w);
      var data, index := Staged(w.dataPath(number)), Staged(w.indexPath(number));
      var content := w.fetch(pack);
      chunk := FreshChunk(w, number, pack);
      store.files := store.files - {data, index};
      var alive := store.Tick();
      if !alive || delivered == 0 {
        return if alive then Erred else Dead, chunk;
      }
      store.files := store.files[data := content.0];
      alive := store.Tick();
      if !alive || delivered == 1 {
        return if alive then Erred else Dead, chunk;
      }
      store.files := store.files[index := content.1];
      o := Alive;
    }

    /** Takes the artifacts of a unit over from the ledger, if both verify. */
    method TakeOver(refs: PackRefs, number: nat, ghost pack: seq<Entry>) returns (o: Progress)
      requires Sane(w) && store.host == w.host && refs == FreshRefs(w, number, pack)
      modifies store
      ensures o.Alive? ==> PackStaged(w, store.files, number, pack)
      ensures o.Alive? ==> InLedger(w.host, old(store.files), refs)
      ensures o.Erred? ==> !InLedger(w.host, old(store.files), refs)
      ensures OnlyPack(w, old(store.files), store.files, number)
      ensures store.power <= old(store.power) && (o.Dead? ==> store.power == 0)
    {
      assert PathsDistinct(w);
      var first := store.Materialize(refs.data);
      if !first.Done? {
        return if first.Killed? then Dead else Erred;
      }
      MatchesOnly(w, store.files[Staged(w.dataPath(number))], w.dataPath(number), w.fetch(pack).0);
      var second := store.Materialize(refs.index);
      if !second.Done? {
        return if second.Killed? then Dead else Erred;
      }
      MatchesOnly(w, store.files[Staged(w.indexPath(number))], w.indexPath(number), w.fetch(pack).1);
      o := Alive;
    }

    /** Pack number `number`, taken over if the candidate unit is fresh and its
        artifacts verify, and captured otherwise. The result does not tell, but the unit
        does. */
    method ReuseOrCapture(number: nat, pack: seq<Entry>, evidence: Freshness, candidate: Option<Unit>, delivered: nat)
      returns (o: Progress, chunk: PackChunk, unit: Unit)
      requires Sane(w) && store.host == w.host && PlainMetadata(pack) && evidence == FreshnessOf(w.host, pack)
      requires candidate.Some? ==> candidate.value.id == w.unitId(number) && HonestUnit(w, number, candidate.value)
      modifies store
      ensures o.Alive? ==> chunk == FreshChunk(w, number, pack) && PackStaged(w, store.files, number, pack)
      ensures o.Alive? ==> UnitOf(w, number, unit, pack)
      ensures o.Alive? ==> (unit.outcome == Reused <==> IsFresh(w, old(store.files), candidate, number, pack))
      ensures OnlyPack(w, old(store.files), store.files, number)
      ensures store.power <= old(store.power) && (o.Dead? ==> store.power == 0) && (o.Erred? ==> delivered < 2)
    {
      chunk := FreshChunk(w, number, pack);
      unit := Unit(w.unitId(number), evidence, [chunk.data.data, chunk.data.index], Refreshed);
      UnitIsHonest(w, number, unit, pack);
      if candidate.Some? {
        var u := candidate.value;
        var refs := PackArtifacts(w, u);
        if u.outcome != Invalidated && evidence.kind == InventoryV2 && u.freshness == evidence && refs.Some? {
          ReuseIsFresh(w, number, u, pack, refs.value.data, refs.value.index);
          o := TakeOver(refs.value, number, pack);
          if !o.Erred? {
            chunk := Chunk(refs.value, |pack|, Total(SizeOf, pack));
            unit := u.(outcome := Reused, freshness := evidence);
            ReusedIsHonest(w, number, u);
            return;
          }
        }
      }
      o, chunk := CapturePack(number, pack, delivered);
    }

    /** The process is between two packs, and the checkpoint says so. */
    ghost predicate Packed(cp: Checkpoint, s: Listing, done: seq<seq<Entry>>)
      reads this, store
    {
      && Reached(w.listing, s) && s.complete && done <= Packs(PackRule, s.entries) && cp == CheckpointOf(w, s, done)
      && inventory == InventoryText(w.listing.codec, s.entries) && PacksStaged(w, store.files, done)
      && (checkpoint.Some? ==> snapshot.done <= done)
    }

    /** saveS3Checkpoint after a pack. */
    method SavePack(cp: Checkpoint, ghost s: Listing, ghost done: seq<seq<Entry>>) returns (alive: bool)
      requires Valid() && Packed(cp, s, done)
      modifies this`checkpoint, this`snapshot, store`power
      ensures Valid() && Packed(cp, s, done) && store.power <= old(store.power) && (!alive ==> store.power == 0)
      ensures if alive then Saved(cp, s, done) else checkpoint == old(checkpoint) && snapshot == old(snapshot)
    {
      alive := store.Tick();
      if alive {
        checkpoint, snapshot := Some(cp), Snapshot(s, done);
      }
    }

    /** What a pack does once it has been read from the inventory. */
    method CompletePack(cp: Checkpoint, pack: seq<Entry>, consumed: nat, candidates: map<Bytes, Unit>,
                        delivers: nat -> nat, ghost s: Listing, ghost done: seq<seq<Entry>>)
      returns (o: Progress, next: Checkpoint, unit: Unit)
      requires Valid() && Packed(cp, s, done) && HonestMap(w, candidates) && PlainMetadata(pack)
      requires done + [pack] <= Packs(PackRule, s.entries) && Flatten(done + [pack]) == Flatten(done) + pack
      requires consumed == |InventoryText(w.listing.codec, pack)|
      modifies this`checkpoint, this`snapshot, store
      ensures Valid() && store.power <= old(store.power) && (o.Dead? ==> store.power == 0)
      ensures o.Erred? ==> Undelivered(delivers)
      ensures o.Alive? ==> Packed(next, s, done + [pack])
      ensures if o.Alive? then Saved(next, s, done + [pack])
              else checkpoint == old(checkpoint) && snapshot == old(snapshot)
      ensures o.Alive? ==> UnitOf(w, |done| + 1, unit, pack)
    {
      hide Sane, Stored, PacksStaged, HonestUnit, Packs, Proven, PlainMetadata;
      next := cp;
      var number := |cp.chunks| + 1;
      var evidence := PackFreshness(w.host, pack);
      var id := w.unitId(number);
      var chunk;
      ghost var before := store.files;
      o, chunk, unit := ReuseOrCapture(number, pack, evidence, if id in candidates then Some(candidates[id]) else None,
                                       delivers(number));
      if checkpoint.Some? {
        OthersStaged(w, before, store.files, snapshot.done, number);
      }
      if !o.Alive? {
        return;
      }
      OthersStaged(w, before, store.files, done, number);
      OneMoreStaged(w, store.files, done, pack);
      CheckpointStep(w, s, done, pack, consumed);
      next := cp.(chunks := cp.chunks + [chunk], processedRecords := cp.processedRecords + |pack|,
                  processedOffset := cp.processedOffset + consumed);
      var alive := SavePack(next, s, done + [pack]);
      o := if alive then Alive else Dead;
    }

    /** One turn of the loop over the packs. */
    method CaptureOne(cp: Checkpoint, reader: PackReader, candidates: map<Bytes, Unit>, units: seq<Unit>,
                      delivers: nat -> nat, ghost s: Listing, ghost done: seq<seq<Entry>>)
      returns (o: Progress, next: Checkpoint, more: seq<Unit>, ghost pack: seq<Entry>)
      requires Valid() && Packed(cp, s, done) && HonestMap(w, candidates) && Left(s.entries, done) != []
      requires reader.codec == w.listing.codec && StandsFor(w.listing.codec, reader.Unread(), Left(s.entries, done))
      requires HonestUnits(w, units, done)
      modifies this`checkpoint, this`snapshot, store, reader
      ensures Valid() && store.power <= old(store.power) && (o.Dead? ==> store.power == 0)
      ensures o.Erred? ==> Undelivered(delivers)
      ensures o.Alive? ==> Packed(next, s, done + [pack]) && pack != [] && HonestUnits(w, more, done + [pack])
      ensures if o.Alive? then Saved(next, s, done + [pack])
              else checkpoint == old(checkpoint) && snapshot == old(snapshot)
      ensures o.Alive? ==> StandsFor(w.listing.codec, reader.Unread(), Left(s.entries, done + [pack]))
    {
      hide Sane, Stored, HonestMap, Delivered, PlainMetadata, PacksStaged, CheckpointOf, Packs, HonestUnit, HonestUnits;
      next, more := cp, units;
      var ok, entries, consumed := reader.Next();
      pack := entries;
      PackRead(w, s, done, ok, entries, consumed, reader.Unread());
      o := Erred;
      if ok {
        var unit;
        o, next, unit := CompletePack(cp, entries, consumed, candidates, delivers, s, done);
        if o.Alive? {
          OneMoreUnit(w, units, done, unit, pack);
          more := units + [unit];
        }
      }
    }

    /** A reader at ProcessedOffset. */
    method OpenReader(cp: Checkpoint, ghost s: Listing, ghost done: seq<seq<Entry>>) returns (reader: PackReader)
      requires Packed(cp, s, done)
      ensures fresh(reader) && reader.codec == w.listing.codec
      ensures StandsFor(w.listing.codec, reader.Unread(), Left(s.entries, done))
    {
      ReaderAtOffset(w.listing.codec, s.entries, done);
      reader := new PackReader(w.listing.codec, inventory[cp.processedOffset..]);
    }

    method CapturePacks(cp: Checkpoint, candidates: map<Bytes, Unit>, before: seq<Unit>, delivers: nat -> nat,
                        ghost s: Listing, ghost start: seq<seq<Entry>>)
      returns (o: Progress, last: Checkpoint, units: seq<Unit>)
      requires Valid() && Packed(cp, s, start) && HonestMap(w, candidates) && HonestUnits(w, before, start)
      requires Saved(cp, s, start)
      modifies this`checkpoint, this`snapshot, store
      ensures Valid() && store.power <= old(store.power) && (o.Dead? ==> store.power == 0)
      ensures o.Erred? ==> Undelivered(delivers)
      ensures o.Alive? ==> Packed(last, s, Packs(PackRule, s.entries))
                           && HonestUnits(w, units, Packs(PackRule, s.entries))
      ensures checkpoint.Some? && snapshot.listing == s && start <= snapshot.done
      ensures o.Alive? ==> Saved(last, s, Packs(PackRule, s.entries))
    {
      hide Sane, Stored, HonestMap, StandsFor, HonestUnits, PacksStaged, CheckpointOf, Packs, Left;
      last, units := cp, before;
      ghost var done := start;
      var reader := OpenReader(cp, s, done);
      while last.processedRecords < last.records
        invariant Valid() && Packed(last, s, done) && HonestUnits(w, units, done) && store.power <= old(store.power)
        invariant Saved(last, s, done) && start <= done
        invariant reader.codec == w.listing.codec && StandsFor(w.listing.codec, reader.Unread(), Left(s.entries, done))
        decreases last.records - last.processedRecords
      {
        PacksToGo(w, last, s, done);
        ghost var previous := last;
        ghost var pack;
        o, last, units, pack := CaptureOne(last, reader, candidates, units, delivers, s, done);
        if !o.Alive? {
          return;
        }
        PackCounts(w, previous, last, s, done, pack);
        done := done + [pack];
      }
      PacksToGo(w, last, s, done);
      o := Alive;
    }

    /** The units of the packs that an interrupted capture has already done. */
    method EarlierUnits(cp: Checkpoint, ghost s: Listing, ghost done: seq<seq<Entry>>) returns (units: seq<Unit>)
      requires Valid() && Packed(cp, s, done)
      ensures HonestUnits(w, units, done)
    {
      hide Sane, Stored, HonestUnit, PacksStaged, Packs;
      var ok, packs := ScanPacks(w.listing.codec, inventory, |cp.chunks|);
      ScannedPacks(w, s, done, packs, ok);
      units := [];
      for i := 0 to |packs|
        invariant HonestUnits(w, units, packs[..i])
      {
        hide HonestUnits;
        var evidence := PackFreshness(w.host, packs[i]);
        var chunk := cp.chunks[i];
        var unit := Unit(w.unitId(i + 1), evidence, [chunk.data.data, chunk.data.index], Refreshed);
        EarlierUnit(w, s, done, i, chunk, unit);
        OneMoreUnit(w, units, packs[..i], unit, packs[i]);
        assert packs[..i + 1] == packs[..i] + [packs[i]];
        units := units + [unit];
      }
    }

    /** What a resumed capture finds: a start, a listing or finished packs. The artifacts
        of these are still there, so the integrity check of the resume passes. */
    method Load() returns (cp: Checkpoint)
      requires Valid()
      ensures cp == CheckpointOf(w, ResumePoint().listing, ResumePoint().done)
      ensures PacksStaged(w, store.files, ResumePoint().done)
    {
      cp := Checkpoint(0, [], 0, false, 0, 0, 0, 0, []);
      if checkpoint.Some? {
        cp := checkpoint.value;
      }
      var ok := CheckChunks(w.host, store.files, cp.chunks);
      StagedVerifies(w, store.files, ResumePoint().done);
      assert ok;
    }

    /** captureObjectsReusable: one run of the process. It fails only if the listing or
        a download does. */
    method Attempt(candidate: Option<Resource>, delivers: nat -> nat) returns (o: Outcome)
      requires Valid()
      requires Usable(w, candidate) ==> Honest(w, candidate.value.units)
      modifies this, store
      ensures Valid()
      ensures o.Finished? ==> FinishedAs(w, o.dataset, store.files)
                              && UnitsReport(w, o.units, o.dataset.records, candidate)
      ensures o.Failed? ==> ListingErrs(w.listing) || Undelivered(delivers)
      ensures o.Crashed? ==> store.power == 0
      ensures Onward(old(checkpoint), old(snapshot), checkpoint, snapshot)
    {
      hide Sane, Stored, HonestMap, HonestUnit, HonestUnits, Honest, PacksStaged, CheckpointOf, Packs, ListingErrs,
          Undelivered;
      var cp := Load();
      ghost var s, done := ResumePoint().listing, ResumePoint().done;
      ResumesAt(w, inventory, checkpoint, snapshot);
      if !cp.complete {
        var listed;
        listed, cp, s := BuildInventory(cp, s);
        if !listed.Alive? {
          return if listed.Dead? then Crashed else Failed;
        }
        ResumesAt(w, inventory, checkpoint, snapshot);
        done := [];
      }
      var candidates := CandidateUnits(w, candidate);
      var units := EarlierUnits(cp, s, done);
      var packed;
      packed, cp, units := CapturePacks(cp, candidates, units, delivers, s, done);
      if !packed.Alive? {
        return if packed.Dead? then Crashed else Failed;
      }
      FinishesAs(w, s, cp, store.files);
      var missing := [];
      if Usable(w, candidate) {
        missing := MissingUnits(w.host, candidate.value.units, cp.records);
      }
      ReportUnits(w, candidate, units, Packs(PackRule, s.entries), missing);
      o := Finished(Dataset(cp.processedRecords, cp.sourceBytes, cp.chunks), units + missing);
    }

    /** Any number of runs, each killed after any number of steps, with downloads that
        fail anywhere. */
    method Session(budgets: seq<nat>, candidate: Option<Resource>, delivers: (nat, nat) -> nat) returns (o: Outcome)
      requires Valid()
      requires Usable(w, candidate) ==> Honest(w, candidate.value.units)
      modifies this, store
      ensures Valid()
      ensures o.Finished? ==> FinishedAs(w, o.dataset, store.files)
                              && UnitsReport(w, o.units, o.dataset.records, candidate)
      ensures o.Failed? ==> ListingErrs(w.listing) || (budgets != [] && UndeliveredIn(delivers, |budgets| - 1))
      ensures o.Crashed? && budgets != [] ==> store.power == 0
      ensures Onward(old(checkpoint), old(snapshot), checkpoint, snapshot)
    {
      hide Sane, Stored, Honest, FinishedAs, ListingErrs;
      o := Crashed;
      for i := 0 to |budgets|
        invariant Valid() && !o.Finished?
        invariant o.Failed? ==> i > 0 && (ListingErrs(w.listing) || UndeliveredIn(delivers, i - 1))
        invariant o.Crashed? && i > 0 ==> store.power == 0
        invariant Onward(old(checkpoint), old(snapshot), checkpoint, snapshot)
      {
        store.power := budgets[i];
        o := Attempt(candidate, n => delivers(i, n));
        if o.Finished? {
          return;
        }
      }
    }

    ghost function ResumePoint(): Snapshot
      reads this
    {
      if checkpoint.Some? then snapshot else Snapshot(Start, [])
    }
  }

  /** The capture has the dataset and the artifacts of an uninterrupted one that
      captures every pack afresh. */
  ghost predicate FinishedAs(w: World, dataset: Dataset<PackRefs>, files: Files) {
    exists s :: Reached(w.listing, s) && s.complete && dataset == DatasetOf(w, s.entries)
                && PacksStaged(w, files, Packs(PackRule, s.entries))
  }

  /** The chunk counts the objects and bytes of the pack and names its archive and its
      index, with their digests and sizes. */
  ghost predicate DescribesPack(w: World, c: PackChunk, number: nat, pack: seq<Entry>) {
    var (archive, index) := w.fetch(pack);
    && c.records == |pack| && c.sourceBytes == Total(SizeOf, pack)
    && c.data.data == Artifact(w.dataPath(number), w.host.hash(archive), |archive|)
    && c.data.index == Artifact(w.indexPath(number), w.host.hash(index), |index|)
  }

  lemma ChunksDescribe(w: World, packs: seq<seq<Entry>>)
    ensures forall k | 0 <= k < |packs| :: DescribesPack(w, FreshChunks(w, packs)[k], k + 1, packs[k])
  {
    hide Total;
  }

  /** A finished full capture has every object of the bucket: the packs list the objects
      of all pages of all prefixes in order, and each is staged with what was fetched. */
  lemma FullCapture(w: World, dataset: Dataset<PackRefs>, files: Files)
    returns (pages: seq<PageRead>, packs: seq<seq<Entry>>)
    requires Sane(w) && w.listing.limits.full && FinishedAs(w, dataset, files)
    requires forall prefix, token :: var page := w.listing.bucket.list(prefix, token);
               page.Some? ==> AllSized(page.value.objects)
    ensures IsTrace(w.listing, pages) && Exhausted(w.listing, pages)
    ensures |Flatten(packs)| == |ObjectsOf(pages)| == dataset.records
    ensures forall i | 0 <= i < |Flatten(packs)| :: Describes(w.listing, Flatten(packs)[i], ObjectsOf(pages)[i])
    ensures |dataset.chunks| == |packs| && PacksStaged(w, files, packs)
    ensures dataset.sourceBytes == Total(SizeOf, Flatten(packs))
    ensures forall k | 0 <= k < |packs| :: DescribesPack(w, dataset.chunks[k], k + 1, packs[k])
  {
    var s :| Reached(w.listing, s) && s.complete && dataset == DatasetOf(w, s.entries)
        && PacksStaged(w, files, Packs(PackRule, s.entries));
    packs := Packs(PackRule, s.entries);
    pages := FullListing(w.listing, s);
    hide Packs, PacksStaged, IsTrace, ObjectsOf, Describes, AllSized, Sane, Reached, Total, FreshChunks, DescribesPack;
    PacksPartition(PackRule, s.entries);
    ChunksDescribe(w, packs);
  }

  /** Whatever is interrupted or taken over from a ledger, and however often, the
      results of two captures of a bucket agree. */
  lemma ResultsAgree(w: World, a: Dataset<PackRefs>, before: Files, b: Dataset<PackRefs>, after: Files)
    requires FinishedAs(w, a, before) && FinishedAs(w, b, after)
    ensures a == b && TotalsMatch(a) && SameArtifacts(w, before, after, |a.chunks|)
  {
    hide Packs, PacksStaged;
    var s :| Reached(w.listing, s) && s.complete && a == DatasetOf(w, s.entries)
        && PacksStaged(w, before, Packs(PackRule, s.entries));
    var t :| Reached(w.listing, t) && t.complete && b == DatasetOf(w, t.entries)
        && PacksStaged(w, after, Packs(PackRule, t.entries));
    FinalListingUnique(w.listing, s, t);
    DatasetIsValid(w, s.entries);
    BothStaged(w, before, after, Packs(PackRule, s.entries));
  }

  /** The archives and indexes of packs 1 to n are the same files. */
  ghost predicate SameArtifacts(w: World, before: Files, after: Files, n: nat) {
    forall number | 1 <= number <= n :: SamePack(w, before, after, number)
  }

  predicate SamePack(w: World, before: Files, after: Files, number: nat) {
    SameFile(before, after, Staged(w.dataPath(number))) && SameFile(before, after, Staged(w.indexPath(number)))
  }

  predicate SameFile(before: Files, after: Files, name: Name) {
    name in before && name in after && before[name] == after[name]
  }

  lemma BothStaged(w: World, before: Files, after: Files, packs: seq<seq<Entry>>)
    requires PacksStaged(w, before, packs) && PacksStaged(w, after, packs)
    ensures SameArtifacts(w, before, after, |packs|)
  {
    forall number | 1 <= number <= |packs| ensures SamePack(w, before, after, number) {
      assert PackStaged(w, before, number - 1 + 1, packs[number - 1])
             && PackStaged(w, after, number - 1 + 1, packs[number - 1]);
    }
  }

  lemma FinishesAs(w: World, s: Listing, cp: Checkpoint, files: Files)
    requires Reached(w.listing, s) && s.complete && cp == CheckpointOf(w, s, Packs(PackRule, s.entries))
    requires PacksStaged(w, files, Packs(PackRule, s.entries))
    ensures FinishedAs(w, Dataset(cp.processedRecords, cp.sourceBytes, cp.chunks), files)
    ensures cp.records == cp.processedRecords == |Flatten(Packs(PackRule, s.entries))|
  {
    PacksPartition(PackRule, s.entries);
    DatasetIsValid(w, s.entries);
    assert DatasetOf(w, s.entries) == Dataset(cp.processedRecords, cp.sourceBytes, cp.chunks);
  }

  lemma ResumesAt(w: World, inventory: Bytes, checkpoint: Option<Checkpoint>, p: Snapshot)
    requires checkpoint.Some? ==> Stored(w, inventory, checkpoint.value, p)
    ensures var q := if checkpoint.Some? then p else Snapshot(Start, []);
            && Reached(w.listing, q.listing) && q.done <= Packs(PackRule, q.listing.entries)
            && (checkpoint.Some? ==> checkpoint.value == CheckpointOf(w, q.listing, q.done))
            && (!q.listing.complete ==> q.done == [])
            && (q.listing.complete ==> inventory == InventoryText(w.listing.codec, q.listing.entries))
            && (CheckpointOf(w, q.listing, q.done).complete <==> q.listing.complete)
            && PacksStaged(w, map[], [])
  {
    ReachedStart(w.listing);
  }

  lemma ScannedPacks(w: World, s: Listing, done: seq<seq<Entry>>, packs: seq<seq<Entry>>, ok: bool)
    requires Sane(w) && done <= Packs(PackRule, s.entries)
    requires var lines := SplitLines(InventoryText(w.listing.codec, s.entries));
             S3Packs.WellFormed(w.listing.codec, lines) ==>
               ok && Firsts(packs, Packs(PackRule, Decoded(w.listing.codec, lines)), |done|)
    ensures packs == done
  {
    InventoryDecodes(w.listing.codec, s.entries);
  }

  lemma EarlierUnit(w: World, s: Listing, done: seq<seq<Entry>>, i: nat, chunk: PackChunk, u: Unit)
    requires Sane(w) && Reached(w.listing, s) && done <= Packs(PackRule, s.entries) && i < |done|
    requires chunk == FreshChunks(w, done)[i] && u.freshness == FreshnessOf(w.host, done[i])
    requires u.artifacts == [chunk.data.data, chunk.data.index]
    ensures HonestUnit(w, i + 1, u)
  {
    PackInListing(s.entries, done, i);
    PackIsPlain(w, s, done[i]);
    UnitIsHonest(w, i + 1, u, done[i]);
  }

  lemma PackInListing(entries: seq<Entry>, done: seq<seq<Entry>>, i: nat)
    requires done <= Packs(PackRule, entries) && i < |done|
    ensures forall e | e in done[i] :: e in entries
  {
    DoneIsPrefix(entries, done);
    hide Packs;
    forall e | e in done[i] ensures e in entries {
      MemberFlatten(done, i, e);
      InPrefix(Flatten(done), entries, e);
    }
  }

  lemma InPrefix(part: seq<Entry>, all: seq<Entry>, e: Entry)
    requires part <= all && e in part
    ensures e in all
  {
    var i :| 0 <= i < |part| && part[i] == e;
    assert all[i] == e;
  }

  /** What the reader delivers is the next pack; reading cannot fail on what the
      capture itself has written. */
  lemma PackRead(w: World, s: Listing, done: seq<seq<Entry>>, ok: bool, pack: seq<Entry>, consumed: nat,
                 unread: seq<Bytes>)
    requires Sane(w) && Reached(w.listing, s) && done <= Packs(PackRule, s.entries) && Left(s.entries, done) != []
    requires Delivered(w.listing.codec, SplitLines(InventoryText(w.listing.codec, Left(s.entries, done))), ok, pack,
             consumed, unread)
    ensures ok && pack != [] && PlainMetadata(pack) && consumed == |InventoryText(w.listing.codec, pack)|
    ensures done + [pack] <= Packs(PackRule, s.entries) && Flatten(done + [pack]) == Flatten(done) + pack
    ensures StandsFor(w.listing.codec, unread, Left(s.entries, done + [pack]))
  {
    NextFromOffset(w.listing.codec, Left(s.entries, done), ok, pack, consumed, unread);
    NextPack(s.entries, done, pack);
    DoneIsPrefix(s.entries, done);
    PackIsPlain(w, s, pack);
  }

  lemma PacksToGo(w: World, cp: Checkpoint, s: Listing, done: seq<seq<Entry>>)
    requires done <= Packs(PackRule, s.entries) && cp == CheckpointOf(w, s, done)
    ensures Left(s.entries, done) != [] <==> cp.processedRecords < cp.records
    ensures cp.processedRecords >= cp.records ==> done == Packs(PackRule, s.entries)
  {
    AllDone(s.entries, done);
    DoneIsPrefix(s.entries, done);
  }

  lemma PackCounts(w: World, cp: Checkpoint, next: Checkpoint, s: Listing, done: seq<seq<Entry>>, pack: seq<Entry>)
    requires cp == CheckpointOf(w, s, done) && next == CheckpointOf(w, s, done + [pack])
    ensures next.processedRecords == cp.processedRecords + |pack| && next.records == cp.records
  {
    FlattenAppend(done, pack);
  }

  lemma ReusedIsHonest(w: World, number: nat, u: Unit)
    requires HonestUnit(w, number, u) && u.outcome != Invalidated && u.freshness.kind == InventoryV2
    ensures HonestUnit(w, number, u.(outcome := Reused))
  {
    var entries :| Recorded(w, number, u, entries);
    assert Recorded(w, number, u.(outcome := Reused), entries);
  }

  lemma UnitIsHonest(w: World, number: nat, u: Unit, pack: seq<Entry>)
    requires u.freshness == FreshnessOf(w.host, pack) && PlainMetadata(pack)
    requires u.artifacts == [FreshRefs(w, number, pack).data, FreshRefs(w, number, pack).index]
    ensures HonestUnit(w, number, u)
  {
    if u.freshness.kind == InventoryV2 {
      assert Recorded(w, number, u, pack);
    }
  }

  /** The uninterrupted listing comes to an error. */
  ghost predicate ListingErrs(cfg: Config) {
    exists s :: Reached(cfg, s) && !s.complete && s.prefix < |cfg.prefixes| && ListStep(cfg, s).None?
  }

  /** The checkpoint fields after a listing page. */
  method AfterPage(w: World, cp: Checkpoint, page: ListPage, ghost s: Listing)
    returns (next: Checkpoint, buffer: Bytes, stop: bool)
    requires cp == CheckpointOf(w, s, []) && s.prefix < |w.listing.prefixes| && !s.complete
    requires w.listing.bucket.list(w.listing.prefixes[s.prefix], s.token) == Some(page)
    ensures ListStep(w.listing, s).Some?
    ensures var t := ListStep(w.listing, s).value;
            && next == CheckpointOf(w, t, [])
            && InventoryText(w.listing.codec, t.entries) == InventoryText(w.listing.codec, s.entries) + buffer
  {
    next, buffer, stop := ListObjects(w.listing, cp, page.objects, s.entries);
    if stop {
      next := next.(complete := true);
    } else {
      next := next.(token := page.next);
      if next.token == [] {
        next := next.(prefix := next.prefix + 1);
      }
      if next.prefix == |w.listing.prefixes| {
        next := next.(complete := true);
      }
    }
  }
}
