/** Datasets as a manifest describes them, and the totals that Manifest.Validate
    checks (internal/model/model.go). A chunk refers to artifacts of type A. */
module Manifest {
  datatype Chunk<+A> = Chunk(data: A, records: int, sourceBytes: int)

  datatype Dataset<+A> = Dataset(records: int, sourceBytes: int, chunks: seq<Chunk<A>>)

  function ChunkRecords<A>(chunks: seq<Chunk<A>>): int {
    if chunks == [] then 0 else chunks[0].records + ChunkRecords(chunks[1..])
  }

  function ChunkBytes<A>(chunks: seq<Chunk<A>>): int {
    if chunks == [] then 0 else chunks[0].sourceBytes + ChunkBytes(chunks[1..])
  }

  predicate NonNegative<A>(chunks: seq<Chunk<A>>) {
    forall k | 0 <= k < |chunks| :: chunks[k].records >= 0 && chunks[k].sourceBytes >= 0
  }

  predicate TotalsMatch<A>(d: Dataset<A>) {
    && d.records >= 0 && d.sourceBytes >= 0 && NonNegative(d.chunks)
    && ChunkRecords(d.chunks) == d.records && ChunkBytes(d.chunks) == d.sourceBytes
  }

  /** The dataset part of Manifest.Validate. */
  method ValidateDataset<A>(d: Dataset<A>) returns (ok: bool)
    ensures ok <==> TotalsMatch(d)
  {
    if d.records < 0 || d.sourceBytes < 0 {
      return false;
    }
    var records, bytes := 0, 0;
    for i := 0 to |d.chunks|
      invariant ChunkRecords(d.chunks) == records + ChunkRecords(d.chunks[i..])
      invariant ChunkBytes(d.chunks) == bytes + ChunkBytes(d.chunks[i..])
      invariant forall k | 0 <= k < i :: d.chunks[k].records >= 0 && d.chunks[k].sourceBytes >= 0
    {
      if d.chunks[i].records < 0 || d.chunks[i].sourceBytes < 0 {
        return false;
      }
      records, bytes := records + d.chunks[i].records, bytes + d.chunks[i].sourceBytes;
    }
    ok := records == d.records && bytes == d.sourceBytes;
  }

  lemma {:induction false} ChunksSplit<A>(a: seq<Chunk<A>>, b: seq<Chunk<A>>)
    ensures ChunkRecords(a + b) == ChunkRecords(a) + ChunkRecords(b)
    ensures ChunkBytes(a + b) == ChunkBytes(a) + ChunkBytes(b)
  {
    if a == [] {
      assert a + b == b;
    } else {
      assert (a + b)[1..] == a[1..] + b;
      ChunksSplit(a[1..], b);
    }
  }
}
