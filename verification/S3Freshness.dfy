/** The freshness evidence of a pack (s3PackFreshness in
    internal/services/s3/data.go): equal digests mean equal entries. */
module S3Freshness {
  import opened ByteStrings
  import opened Lines
  import opened Packing
  import opened S3Packs
  import opened Ledger

  /** Hexadecimal digests contain neither NUL nor newline. */
  ghost predicate Textual(h: Host) {
    && (forall a, b :: h.hash(a) == h.hash(b) ==> a == b)
    && (forall a :: NUL !in h.hash(a) && NEWLINE !in h.hash(a))
  }

  function Version(e: Entry): Bytes {
    e.etag + [NUL] + Itoa(e.size) + [NUL] + e.metadata
  }

  function Row(h: Host, e: Entry): Bytes {
    h.hash(e.key) + [NUL] + h.hash(Version(e))
  }

  function RowsOf(h: Host, entries: seq<Entry>): seq<Bytes> {
    if entries == [] then [] else [Row(h, entries[0])] + RowsOf(h, entries[1..])
  }

  predicate Proven(entries: seq<Entry>) {
    forall e | e in entries :: e.metadata != []
  }

  function FreshnessOf(h: Host, entries: seq<Entry>): Freshness {
    Freshness(if Proven(entries) then InventoryV2 else Unproven, h.hash(Text(RowsOf(h, entries))),
              |entries|, Total(SizeOf, entries))
  }

  /** A metadata digest is a hexadecimal digest or missing. */
  predicate PlainMetadata(entries: seq<Entry>) {
    forall e | e in entries :: NUL !in e.metadata
  }

  /** ETags may contain anything: the fields are told apart from the right. */
  lemma VersionInjective(h: Host, a: Entry, b: Entry)
    requires Textual(h) && NUL !in a.metadata && NUL !in b.metadata
    requires Version(a) == Version(b)
    ensures a.etag == b.etag && a.size == b.size && a.metadata == b.metadata
  {
    SplitAtLast(NUL, a.etag + [NUL] + Itoa(a.size), a.metadata, b.etag + [NUL] + Itoa(b.size), b.metadata);
    SplitAtLast(NUL, a.etag, Itoa(a.size), b.etag, Itoa(b.size));
    ItoaInjective(a.size, b.size);
  }

  lemma RowInjective(h: Host, a: Entry, b: Entry)
    requires Textual(h) && NUL !in a.metadata && NUL !in b.metadata
    requires Row(h, a) == Row(h, b)
    ensures a == b
  {
    SplitAtFirst(NUL, h.hash(a.key), h.hash(Version(a)), h.hash(b.key), h.hash(Version(b)));
    VersionInjective(h, a, b);
  }

  lemma {:induction false} RowsInjective(h: Host, a: seq<Entry>, b: seq<Entry>)
    requires Textual(h) && PlainMetadata(a) && PlainMetadata(b)
    requires RowsOf(h, a) == RowsOf(h, b)
    ensures a == b
  {
    if a != [] && b != [] {
      assert a[0] in a && b[0] in b;
      assert RowsOf(h, a)[0] == Row(h, a[0]) && RowsOf(h, b)[0] == Row(h, b[0]);
      RowInjective(h, a[0], b[0]);
      assert RowsOf(h, a)[1..] == RowsOf(h, a[1..]) && RowsOf(h, b)[1..] == RowsOf(h, b[1..]);
      RowsInjective(h, a[1..], b[1..]);
      assert a == [a[0]] + a[1..] && b == [b[0]] + b[1..];
    }
  }

  lemma {:induction false} RowsHaveNoNewline(h: Host, entries: seq<Entry>)
    requires Textual(h)
    ensures forall r | r in RowsOf(h, entries) :: NEWLINE !in r
  {
    if entries != [] {
      assert NEWLINE !in h.hash(entries[0].key) && NEWLINE !in h.hash(Version(entries[0]));
      RowsHaveNoNewline(h, entries[1..]);
    }
  }

  /** Packs with the same freshness digest list the same objects: same keys, same
      ETags, same sizes and same metadata, in the same order. */
  lemma FreshnessInjective(h: Host, a: seq<Entry>, b: seq<Entry>)
    requires Textual(h) && PlainMetadata(a) && PlainMetadata(b)
    requires FreshnessOf(h, a).digest == FreshnessOf(h, b).digest
    ensures a == b
  {
    RowsHaveNoNewline(h, a);
    RowsHaveNoNewline(h, b);
    assert Text(RowsOf(h, a)) == Text(RowsOf(h, b));
    TextInjective(RowsOf(h, a), RowsOf(h, b));
    RowsInjective(h, a, b);
  }
}
