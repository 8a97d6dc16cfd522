/** Listing a bucket into the inventory, as a computation: what one listing page
    adds (buildInventory in internal/services/s3/data.go). */
module S3Inventory {
  import opened ByteStrings
  import opened Packing
  import opened S3Packs
  import opened Wrappers

  datatype Object = Object(key: Bytes, etag: Bytes, size: int)

  /** One ListObjectsV2 result; an empty token ends the prefix. */
  datatype ListPage = ListPage(objects: seq<Object>, next: Bytes)

  /** The bucket as a function of prefix and token; None stands for an error. */
  datatype Bucket = Bucket(list: (Bytes, Bytes) -> Option<ListPage>, metadata: Bytes -> Bytes)

  datatype Limits = Limits(full: bool, maxObjects: nat, maxObjectBytes: nat, maxTotalBytes: nat)

  datatype Config = Config(bucket: Bucket, limits: Limits, prefixes: seq<Bytes>, codec: Codec)

  /** The listing between two pages. */
  datatype Listing = Listing(prefix: nat, token: Bytes, entries: seq<Entry>, complete: bool)

  const Start: Listing := Listing(0, [], [], false)

  function EntryOf(cfg: Config, o: Object): Entry
    requires o.size >= 0
  {
    Entry(o.key, o.etag, o.size, cfg.bucket.metadata(o.key))
  }

  /** What becomes of one listed object. */
  datatype Fate = Added | Skipped | Stops

  function FateOf(cfg: Config, records: nat, sourceBytes: nat, o: Object): (f: Fate)
    ensures f.Added? ==> o.size >= 0
  {
    if !cfg.limits.full && records >= cfg.limits.maxObjects then Stops
    else if !cfg.limits.full && o.size > cfg.limits.maxObjectBytes then Skipped
    else if o.size < 0 || (!cfg.limits.full && sourceBytes + o.size > cfg.limits.maxTotalBytes) then Stops
    else Added
  }

  /** The entries after the objects of a page, and whether a limit stopped it. */
  function AddObjects(cfg: Config, entries: seq<Entry>, objects: seq<Object>): (seq<Entry>, bool)
    decreases |objects|
  {
    if objects == [] then (entries, false)
    else
      match FateOf(cfg, |entries|, Total(SizeOf, entries), objects[0])
      case Stops => (entries, true)
      case Skipped => AddObjects(cfg, entries, objects[1..])
      case Added => AddObjects(cfg, entries + [EntryOf(cfg, objects[0])], objects[1..])
  }

  function ListStep(cfg: Config, s: Listing): Option<Listing>
    requires s.prefix < |cfg.prefixes|
  {
    var page := cfg.bucket.list(cfg.prefixes[s.prefix], s.token);
    if page.None? then None
    else
      var (entries, stopped) := AddObjects(cfg, s.entries, page.value.objects);
      if stopped then Some(s.(entries := entries, complete := true))
      else
        var prefix := if page.value.next == [] then s.prefix + 1 else s.prefix;
        Some(Listing(prefix, page.value.next, entries, prefix == |cfg.prefixes|))
  }

  function Advance(cfg: Config, s: Option<Listing>): Option<Listing> {
    if s.None? || s.value.complete || s.value.prefix >= |cfg.prefixes| then s else ListStep(cfg, s.value)
  }

  /** The uninterrupted listing after n pages. */
  function Listings(cfg: Config, n: nat): Option<Listing> {
    if n == 0 then Some(Start) else Advance(cfg, Listings(cfg, n - 1))
  }

  ghost predicate Reached(cfg: Config, s: Listing) {
    exists n: nat :: Listings(cfg, n) == Some(s)
  }

  /** The limits of a bounded capture. */
  ghost predicate WithinLimits(cfg: Config, entries: seq<Entry>) {
    cfg.limits.full ||
    (&& |entries| <= cfg.limits.maxObjects && Total(SizeOf, entries) <= cfg.limits.maxTotalBytes
     && forall e | e in entries :: e.size <= cfg.limits.maxObjectBytes)
  }

  lemma {:induction false} AddWithinLimits(cfg: Config, entries: seq<Entry>, objects: seq<Object>)
    requires WithinLimits(cfg, entries)
    ensures WithinLimits(cfg, AddObjects(cfg, entries, objects).0)
    decreases |objects|
  {
    if objects != [] {
      match FateOf(cfg, |entries|, Total(SizeOf, entries), objects[0])
      case Stops =>
      case Skipped => AddWithinLimits(cfg, entries, objects[1..]);
      case Added =>
        TotalAppend(SizeOf, entries, EntryOf(cfg, objects[0]));
        AddWithinLimits(cfg, entries + [EntryOf(cfg, objects[0])], objects[1..]);
    }
  }

  /** Entries carry the metadata digest of their key. */
  ghost predicate FromBucket(cfg: Config, entries: seq<Entry>) {
    forall e | e in entries :: e.metadata == cfg.bucket.metadata(e.key)
  }

  lemma {:induction false} AddFromBucket(cfg: Config, entries: seq<Entry>, objects: seq<Object>)
    requires FromBucket(cfg, entries)
    ensures FromBucket(cfg, AddObjects(cfg, entries, objects).0)
    decreases |objects|
  {
    if objects != [] {
      match FateOf(cfg, |entries|, Total(SizeOf, entries), objects[0])
      case Stops =>
      case Skipped => AddFromBucket(cfg, entries, objects[1..]);
      case Added => AddFromBucket(cfg, entries + [EntryOf(cfg, objects[0])], objects[1..]);
    }
  }

  lemma {:induction false} ListingsKeep(cfg: Config, n: nat)
    requires cfg.prefixes != [] && Listings(cfg, n).Some?
    ensures WithinLimits(cfg, Listings(cfg, n).value.entries) && FromBucket(cfg, Listings(cfg, n).value.entries)
    ensures !Listings(cfg, n).value.complete ==> Listings(cfg, n).value.prefix < |cfg.prefixes|
  {
    if n > 0 {
      ListingsKeep(cfg, n - 1);
      var s := Listings(cfg, n - 1).value;
      if !s.complete {
        var page := cfg.bucket.list(cfg.prefixes[s.prefix], s.token);
        AddWithinLimits(cfg, s.entries, page.value.objects);
        AddFromBucket(cfg, s.entries, page.value.objects);
      }
    }
  }

  /** Whatever the listing reaches is within the limits, and it only ends at the
      end of the prefixes or at a limit. */
  lemma ReachedKeeps(cfg: Config, s: Listing)
    requires cfg.prefixes != [] && Reached(cfg, s)
    ensures WithinLimits(cfg, s.entries) && FromBucket(cfg, s.entries) && (!s.complete ==> s.prefix < |cfg.prefixes|)
  {
    var n: nat :| Listings(cfg, n) == Some(s);
    ListingsKeep(cfg, n);
  }

  lemma ReachedNext(cfg: Config, s: Listing)
    requires cfg.prefixes != [] && Reached(cfg, s) && !s.complete
    ensures s.prefix < |cfg.prefixes|
    ensures ListStep(cfg, s).Some? ==> Reached(cfg, ListStep(cfg, s).value)
  {
    ReachedKeeps(cfg, s);
    var n: nat :| Listings(cfg, n) == Some(s);
    assert Listings(cfg, n + 1) == ListStep(cfg, s);
  }

  lemma ReachedStart(cfg: Config)
    ensures Reached(cfg, Start)
  {
    assert Listings(cfg, 0) == Some(Start);
  }

  lemma {:induction false} CompleteStays(cfg: Config, m: nat, n: nat)
    requires m <= n && Listings(cfg, m).Some? && Listings(cfg, m).value.complete
    ensures Listings(cfg, n) == Listings(cfg, m)
  {
    if m < n {
      CompleteStays(cfg, m, n - 1);
    }
  }

  /** A bucket has at most one finished listing. */
  lemma FinalListingUnique(cfg: Config, s: Listing, t: Listing)
    requires Reached(cfg, s) && Reached(cfg, t) && s.complete && t.complete
    ensures s == t
  {
    var m: nat :| Listings(cfg, m) == Some(s);
    var n: nat :| Listings(cfg, n) == Some(t);
    if m <= n {
      CompleteStays(cfg, m, n);
    } else {
      CompleteStays(cfg, n, m);
    }
  }
}
