/** What a listing holds of a bucket: which pages it has read, which objects it
    has taken from them, and where a limit has stopped it. */
module S3Contents {
  import opened ByteStrings
  import opened Packing
  import opened Sequences
  import opened S3Packs
  import opened S3Inventory
  import opened Wrappers

  /** One last and its answer. */
  datatype PageRead = PageRead(prefix: nat, token: Bytes, page: ListPage)

  /** Where the listing goes on after a page. */
  predicate Follows(before: PageRead, prefix: nat, token: Bytes) {
    if before.page.next == [] then prefix == before.prefix + 1 && token == []
    else prefix == before.prefix && token == before.page.next
  }

  /** The pages of a listing: page after page, prefix after prefix. */
  ghost predicate IsTrace(cfg: Config, pages: seq<PageRead>) {
    && (pages != [] ==> pages[0].prefix == 0 && pages[0].token == [])
    && (forall i | 0 < i < |pages| :: Follows(pages[i - 1], pages[i].prefix, pages[i].token))
    && forall i | 0 <= i < |pages| ::
         pages[i].prefix < |cfg.prefixes|
         && cfg.bucket.list(cfg.prefixes[pages[i].prefix], pages[i].token) == Some(pages[i].page)
  }

  /** The last page of the last prefix has been read. */
  predicate Exhausted(cfg: Config, pages: seq<PageRead>) {
    pages != [] && pages[|pages| - 1].page.next == [] && pages[|pages| - 1].prefix + 1 == |cfg.prefixes|
  }

  function ObjectsOf(pages: seq<PageRead>): seq<Object> {
    if pages == [] then [] else pages[0].page.objects + ObjectsOf(pages[1..])
  }

  lemma {:induction false} ObjectsAppend(pages: seq<PageRead>, last: PageRead)
    ensures ObjectsOf(pages + [last]) == ObjectsOf(pages) + last.page.objects
  {
    if pages == [] {
      assert [last][1..] == [] && pages + [last] == [last];
    } else {
      assert (pages + [last])[1..] == pages[1..] + [last];
      ObjectsAppend(pages[1..], last);
    }
  }

  // ------------------------------------------------------- which are taken

  /** An object that the limit on single objects lets through. */
  predicate SmallEnough(cfg: Config, o: Object) {
    cfg.limits.full || o.size <= cfg.limits.maxObjectBytes
  }

  /** The entries of all objects that are small enough, in order. */
  function EntriesOf(cfg: Config, objects: seq<Object>): seq<Entry> {
    if objects == [] then []
    else
      var o := objects[0];
      (if SmallEnough(cfg, o) && o.size >= 0 then [Entry(o.key, o.etag, o.size, cfg.bucket.metadata(o.key))] else [])
      + EntriesOf(cfg, objects[1..])
  }

  /** The limit on the number of objects, or on their bytes together, ends the listing
      at this object; so does a negative size. */
  predicate Halts(cfg: Config, taken: seq<Entry>, o: Object) {
    || (!cfg.limits.full && |taken| >= cfg.limits.maxObjects)
    || (SmallEnough(cfg, o)
        && (o.size < 0 || (!cfg.limits.full && Total(SizeOf, taken) + o.size > cfg.limits.maxTotalBytes)))
  }

  /** A limit is hit at object number i, behind the entries of those before it. */
  predicate EndsBefore(cfg: Config, taken: seq<Entry>, objects: seq<Object>, i: nat)
    requires i < |objects|
  {
    Halts(cfg, taken + EntriesOf(cfg, objects[..i]), objects[i])
  }

  /** The first object that ends the listing is number k, or there is none. */
  ghost predicate HaltsAt(cfg: Config, taken: seq<Entry>, objects: seq<Object>, k: nat) {
    && k <= |objects| && (forall i | 0 <= i < k :: !EndsBefore(cfg, taken, objects, i))
    && (k < |objects| ==> EndsBefore(cfg, taken, objects, k))
  }

  lemma {:induction false} EntriesSplit(cfg: Config, a: seq<Object>, b: seq<Object>)
    ensures EntriesOf(cfg, a + b) == EntriesOf(cfg, a) + EntriesOf(cfg, b)
  {
    if a == [] {
      assert a + b == b;
    } else {
      assert (a + b)[1..] == a[1..] + b;
      EntriesSplit(cfg, a[1..], b);
    }
  }

  /** A page adds every object before the first one that ends the listing, except those
      that are too large. */
  lemma {:induction false} AddsExactly(cfg: Config, entries: seq<Entry>, objects: seq<Object>) returns (k: nat)
    ensures HaltsAt(cfg, entries, objects, k)
    ensures AddObjects(cfg, entries, objects) == (entries + EntriesOf(cfg, objects[..k]), k < |objects|)
    decreases |objects|
  {
    k := 0;
    assert EntriesOf(cfg, objects[..0]) == [] && entries + [] == entries;
    if objects != [] && !Halts(cfg, entries, objects[0]) {
      assert !EndsBefore(cfg, entries, objects, 0);
      hide EndsBefore, EntriesOf, AddObjects;
      var one := EntriesOf(cfg, objects[..1]);
      TakesOne(cfg, entries, objects);
      k := AddsExactly(cfg, entries + one, objects[1..]);
      forall i | 0 < i <= k ensures !EndsBefore(cfg, entries, objects, i) {
        BehindOne(cfg, entries, objects, i - 1);
      }
      BehindOne(cfg, entries, objects, k);
      k := k + 1;
    }
  }

  /** What lies behind the first object does not depend on how it is reached. */
  lemma BehindOne(cfg: Config, entries: seq<Entry>, objects: seq<Object>, i: nat)
    requires i < |objects|
    ensures entries + EntriesOf(cfg, objects[..i + 1])
            == entries + EntriesOf(cfg, objects[..1]) + EntriesOf(cfg, objects[1..][..i])
    ensures i + 1 < |objects| ==>
              (EndsBefore(cfg, entries, objects, i + 1)
               <==> EndsBefore(cfg, entries + EntriesOf(cfg, objects[..1]), objects[1..], i))
  {
    hide EntriesOf, Halts;
    assert objects[..i + 1] == objects[..1] + objects[1..][..i];
    EntriesSplit(cfg, objects[..1], objects[1..][..i]);
  }

  lemma TakesOne(cfg: Config, entries: seq<Entry>, objects: seq<Object>)
    requires objects != [] && !Halts(cfg, entries, objects[0])
    ensures AddObjects(cfg, entries, objects) ==
            AddObjects(cfg, entries + EntriesOf(cfg, objects[..1]), objects[1..])
  {
    var o := objects[0];
    assert objects[..1] == [o] && [o][1..] == [] && entries + [] == entries;
    if SmallEnough(cfg, o) {
      var one := [Entry(o.key, o.etag, o.size, cfg.bucket.metadata(o.key))];
      assert EntriesOf(cfg, [o]) == one + [] == one;
      assert FateOf(cfg, |entries|, Total(SizeOf, entries), o) == Added && EntryOf(cfg, o) == one[0];
    } else {
      assert FateOf(cfg, |entries|, Total(SizeOf, entries), o) == Skipped;
    }
  }

  // ------------------------------------------------------- the whole listing

  /** The listing has read these pages, and has taken their objects up to number k. */
  ghost predicate Lists(cfg: Config, s: Listing, pages: seq<PageRead>, k: nat) {
    var all := ObjectsOf(pages);
    && IsTrace(cfg, pages) && HaltsAt(cfg, [], all, k) && s.entries == EntriesOf(cfg, all[..k])
    && if k < |all| then s.complete
       else
         && (s.complete <==> Exhausted(cfg, pages))
         && if pages == [] then s.prefix == 0 && s.token == []
            else Follows(pages[|pages| - 1], s.prefix, s.token)
  }

  lemma EndsInFirst(cfg: Config, a: seq<Object>, b: seq<Object>, i: nat)
    requires i < |a|
    ensures EndsBefore(cfg, [], a + b, i) <==> EndsBefore(cfg, [], a, i)
  {
    assert (a + b)[..i] == a[..i];
  }

  lemma EndsInSecond(cfg: Config, a: seq<Object>, b: seq<Object>, i: nat)
    requires i <= |b|
    ensures EntriesOf(cfg, (a + b)[..|a| + i]) == EntriesOf(cfg, a) + EntriesOf(cfg, b[..i])
    ensures i < |b| ==> (EndsBefore(cfg, [], a + b, |a| + i) <==> EndsBefore(cfg, EntriesOf(cfg, a), b, i))
  {
    hide EntriesOf, Halts;
    assert (a + b)[..|a| + i] == a + b[..i];
    EntriesSplit(cfg, a, b[..i]);
    assert [] + EntriesOf(cfg, a + b[..i]) == EntriesOf(cfg, a + b[..i]);
  }

  lemma HaltsSplit(cfg: Config, a: seq<Object>, b: seq<Object>, j: nat)
    requires HaltsAt(cfg, [], a, |a|) && HaltsAt(cfg, EntriesOf(cfg, a), b, j)
    ensures HaltsAt(cfg, [], a + b, |a| + j)
    ensures EntriesOf(cfg, (a + b)[..|a| + j]) == EntriesOf(cfg, a) + EntriesOf(cfg, b[..j])
  {
    hide EndsBefore, EntriesOf;
    EndsInSecond(cfg, a, b, j);
    forall i | 0 <= i < |a| + j ensures !EndsBefore(cfg, [], a + b, i) {
      if i < |a| {
        EndsInFirst(cfg, a, b, i);
      } else {
        EndsInSecond(cfg, a, b, i - |a|);
      }
    }
  }

  lemma Begins(cfg: Config)
    requires cfg.prefixes != []
    ensures Lists(cfg, Start, [], 0)
  {
  }

  lemma TraceMore(cfg: Config, pages: seq<PageRead>, last: PageRead)
    requires IsTrace(cfg, pages) && last.prefix < |cfg.prefixes|
    requires cfg.bucket.list(cfg.prefixes[last.prefix], last.token) == Some(last.page)
    requires if pages == [] then last.prefix == 0 && last.token == []
             else Follows(pages[|pages| - 1], last.prefix, last.token)
    ensures IsTrace(cfg, pages + [last])
  {
  }

  /** Where a page leads. */
  lemma StepLeads(cfg: Config, s: Listing, last: PageRead, entries: seq<Entry>, stopped: bool)
    requires s.prefix < |cfg.prefixes| && last.prefix == s.prefix && last.token == s.token && !s.complete
    requires cfg.bucket.list(cfg.prefixes[s.prefix], s.token) == Some(last.page)
    requires AddObjects(cfg, s.entries, last.page.objects) == (entries, stopped)
    ensures ListStep(cfg, s).Some?
    ensures var t := ListStep(cfg, s).value;
            && t.entries == entries
            && if stopped then t.complete
               else Follows(last, t.prefix, t.token)
                    && (t.complete <==> last.page.next == [] && last.prefix + 1 == |cfg.prefixes|)
  {
    hide AddObjects;
  }

  /** One more page. */
  lemma ListsOneMore(cfg: Config, s: Listing, pages: seq<PageRead>) returns (more: seq<PageRead>, k: nat)
    requires !s.complete && s.prefix < |cfg.prefixes| && ListStep(cfg, s).Some?
    requires Lists(cfg, s, pages, |ObjectsOf(pages)|)
    ensures Lists(cfg, ListStep(cfg, s).value, more, k)
  {
    var last := PageRead(s.prefix, s.token, cfg.bucket.list(cfg.prefixes[s.prefix], s.token).value);
    var all, objects := ObjectsOf(pages), last.page.objects;
    var j := MoreObjects(cfg, s.entries, all, objects);
    more, k := pages + [last], |all| + j;
    StepLeads(cfg, s, last, EntriesOf(cfg, (all + objects)[..k]), j < |objects|);
    TraceMore(cfg, pages, last);
    ObjectsAppend(pages, last);
    hide HaltsAt, EntriesOf, AddObjects, IsTrace, ObjectsOf, ListStep;
    assert more[|more| - 1] == last;
  }

  lemma MoreObjects(cfg: Config, entries: seq<Entry>, all: seq<Object>, objects: seq<Object>) returns (j: nat)
    requires HaltsAt(cfg, [], all, |all|) && entries == EntriesOf(cfg, all[..|all|])
    ensures HaltsAt(cfg, [], all + objects, |all| + j)
    ensures AddObjects(cfg, entries, objects) == (EntriesOf(cfg, (all + objects)[..|all| + j]), j < |objects|)
  {
    hide Halts, EntriesOf, AddObjects;
    assert all[..|all|] == all;
    j := AddsExactly(cfg, entries, objects);
    HaltsSplit(cfg, all, objects, j);
  }

  lemma {:induction false} ListingsExactly(cfg: Config, n: nat) returns (pages: seq<PageRead>, k: nat)
    requires cfg.prefixes != [] && Listings(cfg, n).Some?
    ensures Lists(cfg, Listings(cfg, n).value, pages, k)
  {
    pages, k := [], 0;
    Begins(cfg);
    if n > 0 {
      pages, k := ListingsExactly(cfg, n - 1);
      var s := Listings(cfg, n - 1).value;
      ListingsKeep(cfg, n - 1);
      if !s.complete {
        pages, k := ListsOneMore(cfg, s, pages);
      }
    }
  }

  /** A reached listing holds the objects of the pages it has read, in their order, up to
      the first one that ends it, except those over the limit on single objects. It is
      complete exactly if it was ended in this way or no page is left. */
  lemma ReachedLists(cfg: Config, s: Listing) returns (pages: seq<PageRead>, k: nat)
    requires cfg.prefixes != [] && Reached(cfg, s)
    ensures Lists(cfg, s, pages, k)
  {
    var n: nat :| Listings(cfg, n) == Some(s);
    pages, k := ListingsExactly(cfg, n);
  }

  /** The entry describes the object, with the metadata digest of its key. */
  predicate Describes(cfg: Config, e: Entry, o: Object) {
    e.key == o.key && e.etag == o.etag && e.size == o.size && e.metadata == cfg.bucket.metadata(o.key)
  }

  ghost predicate AllSized(objects: seq<Object>) {
    forall o | o in objects :: o.size >= 0
  }

  lemma {:induction false} AllTaken(cfg: Config, objects: seq<Object>)
    requires cfg.limits.full && AllSized(objects)
    ensures |EntriesOf(cfg, objects)| == |objects|
    ensures forall i | 0 <= i < |objects| :: Describes(cfg, EntriesOf(cfg, objects)[i], objects[i])
  {
    if objects != [] {
      AllTaken(cfg, objects[1..]);
    }
  }

  /** A finished full listing holds every object of every page of every prefix. */
  lemma FullListing(cfg: Config, s: Listing) returns (pages: seq<PageRead>)
    requires cfg.prefixes != [] && cfg.limits.full && Reached(cfg, s) && s.complete
    requires forall prefix, token :: var page := cfg.bucket.list(prefix, token);
               page.Some? ==> AllSized(page.value.objects)
    ensures IsTrace(cfg, pages) && Exhausted(cfg, pages) && |s.entries| == |ObjectsOf(pages)|
    ensures forall i | 0 <= i < |s.entries| :: Describes(cfg, s.entries[i], ObjectsOf(pages)[i])
  {
    var k;
    pages, k := ReachedLists(cfg, s);
    var all := ObjectsOf(pages);
    forall o | o in all ensures o.size >= 0 {
      var i := ObjectFrom(pages, o);
    }
    assert all[..|all|] == all;
    AllTaken(cfg, all);
  }

  lemma {:induction false} ObjectFrom(pages: seq<PageRead>, o: Object) returns (i: nat)
    requires o in ObjectsOf(pages)
    ensures i < |pages| && o in pages[i].page.objects
  {
    if o in pages[0].page.objects {
      i := 0;
    } else {
      i := ObjectFrom(pages[1..], o);
      i := i + 1;
    }
  }

  lemma {:induction false} TakenIn(cfg: Config, objects: seq<Object>, j: nat) returns (e: Entry)
    requires j < |objects| && SmallEnough(cfg, objects[j]) && objects[j].size >= 0
    ensures e in EntriesOf(cfg, objects) && Describes(cfg, e, objects[j])
  {
    if j > 0 {
      e := TakenIn(cfg, objects[1..], j - 1);
    } else {
      e := EntriesOf(cfg, objects)[0];
    }
  }

  /** Why an object of a page that was read is not in the listing: it is too large, or a
      limit was hit there or before. */
  lemma LeftOut(cfg: Config, s: Listing, pages: seq<PageRead>, k: nat, j: nat)
    requires Lists(cfg, s, pages, k) && j < |ObjectsOf(pages)|
    requires forall e | e in s.entries :: !Describes(cfg, e, ObjectsOf(pages)[j])
    ensures (!cfg.limits.full && ObjectsOf(pages)[j].size > cfg.limits.maxObjectBytes) || j >= k
    ensures j >= k ==> Halts(cfg, s.entries, ObjectsOf(pages)[k])
  {
    var all := ObjectsOf(pages);
    assert [] + EntriesOf(cfg, all[..k]) == EntriesOf(cfg, all[..k]);
    if j < k && SmallEnough(cfg, all[j]) {
      assert !EndsBefore(cfg, [], all, j);
      var e := TakenIn(cfg, all[..k], j);
    }
  }
}
