/** Splitting the merged rows into dataset chunks (writeDynamoChunks), and the
    totals that Manifest.Validate checks on every dataset. */
module DynamoChunks {
  import opened ByteStrings
  import opened Lines
  import opened Manifest
  import opened Packing
  import opened Sequences
  import opened Wrappers

  const CHUNK_BYTES: nat := 67_108_864

  /** A chunk with the bytes of its artifact. */
  type DynamoChunk = Chunk<Bytes>

  function Length(line: Bytes): nat {
    |line|
  }

  const ChunkRule: Rule<Bytes> := Rule(Length, CHUNK_BYTES, None)

  /** The lines of a file, each with its newline. */
  function SplitLines(content: Bytes): (lines: seq<Bytes>)
    ensures Flatten(lines) == content
    decreases |content|
  {
    if content == [] then []
    else
      var (line, rest) := ReadBytes(content);
      [line] + SplitLines(rest)
  }

  function ChunkOf(pack: seq<Bytes>): DynamoChunk {
    Chunk(Flatten(pack), |pack|, Total(Length, pack))
  }

  function Chunks(packs: seq<seq<Bytes>>): (r: seq<DynamoChunk>)
    ensures |r| == |packs|
  {
    seq(|packs|, i requires 0 <= i < |packs| => ChunkOf(packs[i]))
  }

  function ChunkData(chunks: seq<DynamoChunk>): Bytes {
    if chunks == [] then [] else chunks[0].data + ChunkData(chunks[1..])
  }

  /** writeDynamoChunks: reads line by line with one line of lookahead. */
  method WriteChunks(merged: Bytes) returns (d: Dataset<Bytes>)
    ensures d.chunks == Chunks(Packs(ChunkRule, SplitLines(merged)))
    ensures d.records == |SplitLines(merged)| && d.sourceBytes == |merged|
  {
    ghost var lines := SplitLines(merged);
    d := Dataset(0, 0, []);
    var (pending, rest) := ReadBytes(merged);
    ghost var done: seq<seq<Bytes>> := [];
    while pending != []
      invariant Remaining(pending, rest, lines) && d.chunks == Chunks(done)
      invariant Packs(ChunkRule, SplitLines(merged)) == done + Packs(ChunkRule, lines)
      invariant d.records + |lines| == |SplitLines(merged)| && d.sourceBytes + |pending| + |rest| == |merged|
      decreases |lines|
    {
      var chunk: DynamoChunk;
      ghost var pack;
      ghost var before := lines;
      chunk, pending, rest, pack := WriteChunk(pending, rest, lines);
      lines := lines[|pack|..];
      assert done + Packs(ChunkRule, before) == (done + [pack]) + Packs(ChunkRule, lines);
      FlattenLength(pack);
      d := Dataset(d.records + chunk.records, d.sourceBytes + chunk.sourceBytes, d.chunks + [chunk]);
      done := done + [pack];
    }
    assert lines == [] && done + [] == done;
  }

  /** The reader's pending line and unread bytes stand for these lines. */
  ghost predicate Remaining(pending: Bytes, rest: Bytes, lines: seq<Bytes>) {
    if lines == [] then pending == [] && rest == []
    else pending == lines[0] && pending != [] && SplitLines(rest) == lines[1..]
  }

  /** The body of the artifact callback: one chunk, as long as it fits. */
  method WriteChunk(first: Bytes, unread: Bytes, ghost lines: seq<Bytes>)
    returns (chunk: DynamoChunk, pending: Bytes, rest: Bytes, ghost pack: seq<Bytes>)
    requires first != [] && Remaining(first, unread, lines)
    ensures pack == lines[..PackLength(ChunkRule, lines)] && chunk == ChunkOf(pack)
    ensures Remaining(pending, rest, lines[|pack|..])
    ensures |first| + |unread| == chunk.sourceBytes + |pending| + |rest|
  {
    pending, rest, pack := first, unread, [];
    chunk := Chunk([], 0, 0);
    ghost var left := lines;
    while pending != []
      invariant |pack| <= |lines| && pack == lines[..|pack|] && left == lines[|pack|..]
      invariant Remaining(pending, rest, left)
      invariant chunk == ChunkOf(pack)
      invariant PackLength(ChunkRule, lines) == |pack| + Grow(ChunkRule, left, |pack|, chunk.sourceBytes)
      invariant |first| + |unread| == chunk.sourceBytes + |pending| + |rest|
      decreases |pending| + |rest|
    {
      if chunk.records > 0 && chunk.sourceBytes + |pending| > CHUNK_BYTES {
        break;
      }
      ChunkOfAppend(pack, pending);
      chunk := Chunk(chunk.data + pending, chunk.records + 1, chunk.sourceBytes + |pending|);
      assert lines[..|pack| + 1] == pack + [left[0]];
      pack := pack + [pending];
      left := left[1..];
      var next := ReadBytes(rest);
      pending, rest := next.0, next.1;
    }
  }

  lemma ChunkOfAppend(pack: seq<Bytes>, line: Bytes)
    ensures ChunkOf(pack + [line]) ==
            Chunk(ChunkOf(pack).data + line, ChunkOf(pack).records + 1, ChunkOf(pack).sourceBytes + |line|)
  {
    FlattenAppend(pack, line);
    TotalAppend(Length, pack, line);
  }

  lemma {:induction false} FlattenLength(pack: seq<Bytes>)
    ensures |Flatten(pack)| == Total(Length, pack)
  {
    if pack != [] {
      FlattenLength(pack[1..]);
    }
  }

  lemma {:induction false} ChunksSum(packs: seq<seq<Bytes>>)
    ensures ChunkRecords(Chunks(packs)) == |Flatten(packs)|
    ensures ChunkBytes(Chunks(packs)) == |Flatten(Flatten(packs))|
    ensures ChunkData(Chunks(packs)) == Flatten(Flatten(packs))
  {
    if packs != [] {
      assert Chunks(packs)[1..] == Chunks(packs[1..]);
      ChunksSum(packs[1..]);
      FlattenLength(packs[0]);
      FlattenSplit(packs[0], Flatten(packs[1..]));
    }
  }

  /** The chunks of a capture: they concatenate to the merged file, none is empty,
      only a chunk of one row exceeds the limit, and the totals are exact, so the
      manifest accepts them. */
  lemma ChunksOfCapture(merged: Bytes)
    ensures var chunks := Chunks(Packs(ChunkRule, SplitLines(merged)));
            && ChunkData(chunks) == merged
            && TotalsMatch(Dataset(|SplitLines(merged)|, |merged|, chunks))
            && forall k | 0 <= k < |chunks| ::
                 chunks[k].records > 0 && (chunks[k].records == 1 || chunks[k].sourceBytes <= CHUNK_BYTES)
  {
    var packs := Packs(ChunkRule, SplitLines(merged));
    PacksPartition(ChunkRule, SplitLines(merged));
    ChunksSum(packs);
    forall k | 0 <= k < |packs|
      ensures var c := Chunks(packs)[k]; c.records > 0 && (c.records == 1 || c.sourceBytes <= CHUNK_BYTES)
    {
      assert GoodPack(ChunkRule, packs[k]);
    }
  }

  /** The lines of a file of rows are the rows: nothing is split or joined. */
  lemma {:induction false} LinesOfRows(rows: seq<Bytes>)
    requires forall r | r in rows :: NEWLINE !in r
    ensures |SplitLines(Text(rows))| == |rows|
    ensures forall i | 0 <= i < |rows| :: SplitLines(Text(rows))[i] == rows[i] + [NEWLINE]
  {
    if rows != [] {
      ReadText(rows);
      LinesOfRows(rows[1..]);
    }
  }
}
