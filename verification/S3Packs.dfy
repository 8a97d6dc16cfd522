/** Cutting the S3 inventory into packs (inventoryPackReader and
    scanS3InventoryPacks in internal/services/s3/data.go). */
module S3Packs {
  import opened ByteStrings
  import opened Lines
  import opened Packing
  import opened Sequences
  import opened DynamoChunks
  import opened Wrappers

  const PACK_OBJECTS: nat := 10_000
  const PACK_BYTES: nat := 268_435_456

  /** inventoryEntry; an empty metadata digest means that there is none. */
  datatype Entry = Entry(key: Bytes, etag: Bytes, size: nat, metadata: Bytes)

  /** JSON text of entries. */
  datatype Codec = Codec(encode: Entry -> Bytes, decode: Bytes -> Option<Entry>)

  ghost predicate Readable(c: Codec) {
    forall e :: NEWLINE !in c.encode(e) && c.decode(c.encode(e) + [NEWLINE]) == Some(e)
  }

  function SizeOf(e: Entry): nat {
    e.size
  }

  const PackRule: Rule<Entry> := Rule(SizeOf, PACK_BYTES, Some(PACK_OBJECTS))

  function LineOf(c: Codec, e: Entry): Bytes {
    c.encode(e) + [NEWLINE]
  }

  /** The inventory file of these entries. */
  function InventoryText(c: Codec, entries: seq<Entry>): Bytes {
    if entries == [] then [] else LineOf(c, entries[0]) + InventoryText(c, entries[1..])
  }

  /** The entries on the lines before the first one that does not decode. */
  ghost function Decoded(c: Codec, lines: seq<Bytes>): (r: seq<Entry>)
    ensures |r| <= |lines|
  {
    if lines == [] || c.decode(lines[0]).None? then [] else [c.decode(lines[0]).value] + Decoded(c, lines[1..])
  }

  lemma {:induction false} InventorySplit(c: Codec, a: seq<Entry>, b: seq<Entry>)
    ensures InventoryText(c, a + b) == InventoryText(c, a) + InventoryText(c, b)
  {
    if a == [] {
      assert a + b == b;
    } else {
      assert (a + b)[1..] == a[1..] + b;
      InventorySplit(c, a[1..], b);
    }
  }

  lemma InventoryAppend(c: Codec, entries: seq<Entry>, e: Entry)
    ensures InventoryText(c, entries + [e]) == InventoryText(c, entries) + LineOf(c, e)
  {
    InventorySplit(c, entries, [e]);
    assert [e][1..] == [] && InventoryText(c, [e]) == LineOf(c, e) + [];
  }

  /** Every line of an inventory decodes, to the entries it was written for. */
  lemma {:induction false} InventoryDecodes(c: Codec, entries: seq<Entry>)
    requires Readable(c)
    ensures var lines := SplitLines(InventoryText(c, entries));
            |lines| == |entries| && Decoded(c, lines) == entries
  {
    if entries != [] {
      var e, rest := entries[0], InventoryText(c, entries[1..]);
      LineLengthFirst(c.encode(e), rest);
      assert ReadBytes(InventoryText(c, entries)) == (LineOf(c, e), rest);
      InventoryDecodes(c, entries[1..]);
      assert SplitLines(InventoryText(c, entries))[1..] == SplitLines(rest);
    }
  }

  lemma {:induction false} DecodedAll(c: Codec, lines: seq<Bytes>)
    ensures |Decoded(c, lines)| < |lines| ==> c.decode(lines[|Decoded(c, lines)|]).None?
  {
    if lines != [] && c.decode(lines[0]).Some? {
      DecodedAll(c, lines[1..]);
    }
  }

  /** A line without a newline is the last one. */
  lemma {:induction false} LastLine(rest: Bytes)
    requires rest != [] && ReadBytes(rest).0[|ReadBytes(rest).0| - 1] != NEWLINE
    ensures ReadBytes(rest).1 == []
  {
    if rest[0] != NEWLINE && |rest| > 1 {
      var tail := rest[1..];
      assert ReadBytes(rest).0 == [rest[0]] + ReadBytes(tail).0;
      LastLine(tail);
    }
  }

  /** What one call of Next has read so far: some entries of `packBytes` bytes. */
  ghost predicate Reading(c: Codec, lines: seq<Bytes>, all: seq<Entry>, entries: seq<Entry>, consumed: nat,
                          packBytes: nat, unread: seq<Bytes>) {
    && ReadUpTo(c, lines, all, entries, unread)
    && consumed + Total(Length, unread) == Total(Length, lines)
    && Growing(all, |entries|, packBytes)
  }

  ghost predicate ReadUpTo(c: Codec, lines: seq<Bytes>, all: seq<Entry>, entries: seq<Entry>, unread: seq<Bytes>) {
    var k := |entries|;
    k <= |all| <= |lines| && entries == all[..k] && unread == lines[k..] && Decoded(c, unread) == all[k..]
  }

  ghost predicate Growing(all: seq<Entry>, k: nat, packBytes: nat) {
    k <= |all| && PackLength(PackRule, all) == k + Grow(PackRule, all[k..], k, packBytes)
  }

  lemma ReadMore(c: Codec, lines: seq<Bytes>, all: seq<Entry>, entries: seq<Entry>, unread: seq<Bytes>, e: Entry)
    requires ReadUpTo(c, lines, all, entries, unread) && unread != [] && c.decode(unread[0]) == Some(e)
    ensures |entries| < |all| && all[|entries|] == e
    ensures ReadUpTo(c, lines, all, entries + [e], unread[1..])
  {
    var k := |entries|;
    assert all[k..][0] == e && all[k..][1..] == all[k + 1..];
  }

  lemma GrowMore(all: seq<Entry>, k: nat, packBytes: nat)
    requires Growing(all, k, packBytes) && k < |all| && k < PACK_OBJECTS
             && (k == 0 || packBytes + all[k].size <= PACK_BYTES)
    ensures Growing(all, k + 1, packBytes + all[k].size)
  {
    assert all[k..][0] == all[k] && all[k..][1..] == all[k + 1..];
  }

  lemma ReadEntry(c: Codec, lines: seq<Bytes>, all: seq<Entry>, entries: seq<Entry>, consumed: nat, packBytes: nat,
                  unread: seq<Bytes>, e: Entry)
    requires Reading(c, lines, all, entries, consumed, packBytes, unread)
    requires unread != [] && c.decode(unread[0]) == Some(e)
    requires |entries| < PACK_OBJECTS && (entries == [] || packBytes + e.size <= PACK_BYTES)
    ensures Reading(c, lines, all, entries + [e], consumed + |unread[0]|, packBytes + e.size, unread[1..])
  {
    ReadMore(c, lines, all, entries, unread, e);
    GrowMore(all, |entries|, packBytes);
  }

  /** What Next returns. With `all` the entries up to the first malformed line, it
      delivers the first pack of `all`, and fails exactly if it would have to read
      the malformed line to see where that pack ends. */
  ghost predicate Delivered(c: Codec, lines: seq<Bytes>, ok: bool, entries: seq<Entry>, consumed: nat,
                            unread: seq<Bytes>) {
    var all := Decoded(c, lines);
    var n := PackLength(PackRule, all);
    && (ok <==> n < |all| || |all| == |lines| || n == PACK_OBJECTS)
    && (ok ==> entries == all[..n] && unread == lines[n..] && consumed + Total(Length, unread) == Total(Length, lines))
  }

  lemma PackEnds(c: Codec, lines: seq<Bytes>, entries: seq<Entry>, consumed: nat, packBytes: nat, unread: seq<Bytes>)
    requires Reading(c, lines, Decoded(c, lines), entries, consumed, packBytes, unread)
    requires || |entries| == PACK_OBJECTS || unread == []
             || (entries != [] && c.decode(unread[0]).Some? && packBytes + c.decode(unread[0]).value.size > PACK_BYTES)
    ensures Delivered(c, lines, true, entries, consumed, unread)
  {
    var all := Decoded(c, lines);
    if unread != [] && c.decode(unread[0]).Some? {
      assert all[|entries|..][0] == c.decode(unread[0]).value;
    }
  }

  lemma PackFails(c: Codec, lines: seq<Bytes>, entries: seq<Entry>, consumed: nat, packBytes: nat, unread: seq<Bytes>)
    requires Reading(c, lines, Decoded(c, lines), entries, consumed, packBytes, unread)
    requires |entries| < PACK_OBJECTS && unread != [] && c.decode(unread[0]).None?
    ensures Delivered(c, lines, false, entries, consumed, [])
  {
  }

  class PackReader {
    const codec: Codec
    var rest: Bytes
    var pending: Bytes

    constructor (codec: Codec, content: Bytes)
      ensures this.codec == codec && Unread() == SplitLines(content)
    {
      this.codec, rest, pending := codec, content, [];
    }

    /** The lines that have not been delivered, the one looked at included. */
    ghost function Unread(): seq<Bytes>
      reads this
    {
      if pending == [] then SplitLines(rest) else [pending] + SplitLines(rest)
    }

    /** Takes the next line, which may be the one put back. */
    method TakeLine() returns (line: Bytes, last: bool)
      modifies this
      ensures pending == []
      ensures if old(Unread()) == [] then line == [] && Unread() == []
              else line != [] && line == old(Unread())[0] && Unread() == old(Unread())[1..]
      ensures last ==> Unread() == []
    {
      line, pending, last := pending, [], false;
      if line == [] {
        var next := ReadBytes(rest);
        last := rest == [] || next.0[|next.0| - 1] != NEWLINE;
        if rest != [] && last {
          LastLine(rest);
        }
        line, rest := next.0, next.1;
      }
    }

    /** One turn of the loop of Next. */
    method ReadOne(entries: seq<Entry>, consumed: nat, packBytes: nat)
      returns (turn: Turn, more: seq<Entry>, bytes: nat, size: nat)
      modifies this
      ensures Turned(codec, old(Unread()), entries, consumed, packBytes, turn, more, bytes, size, Unread())
    {
      more, bytes, size := entries, consumed, packBytes;
      ghost var unread := Unread();
      var line, last := TakeLine();
      if line == [] {
        return Stop, more, bytes, size;
      }
      var entry := codec.decode(line);
      if entry.None? {
        return Malformed, more, bytes, size;
      }
      if entries != [] && packBytes + entry.value.size > PACK_BYTES {
        pending := line;
        assert Unread() == unread;
        return Stop, more, bytes, size;
      }
      more, bytes, size := entries + [entry.value], consumed + |line|, packBytes + entry.value.size;
      turn := if last then Stop else Go;
    }

    method Next() returns (ok: bool, entries: seq<Entry>, consumed: nat)
      modifies this
      ensures Delivered(codec, old(Unread()), ok, entries, consumed, if ok then Unread() else [])
    {
      ghost var lines := Unread();
      entries, consumed := [], 0;
      var packBytes: nat := 0;
      StartReading(codec, lines);
      while |entries| < PACK_OBJECTS
        invariant Reading(codec, lines, Decoded(codec, lines), entries, consumed, packBytes, Unread())
        invariant |entries| <= PACK_OBJECTS
      {
        ghost var unread := Unread();
        var turn, more, bytes, size := ReadOne(entries, consumed, packBytes);
        TakeTurn(codec, lines, unread, entries, consumed, packBytes, turn, more, bytes, size, Unread());
        entries, consumed, packBytes := more, bytes, size;
        if !turn.Go? {
          return turn.Stop?, entries, consumed;
        }
      }
      PackEnds(codec, lines, entries, consumed, packBytes, Unread());
      ok := true;
    }
  }

  datatype Turn = Go | Stop | Malformed

  ghost predicate Turned(c: Codec, before: seq<Bytes>, entries: seq<Entry>, consumed: nat, packBytes: nat,
                         turn: Turn, more: seq<Entry>, bytes: nat, size: nat, after: seq<Bytes>) {
    if before == [] then turn.Stop? && (more, bytes, size, after) == (entries, consumed, packBytes, before)
    else if c.decode(before[0]).None? then turn.Malformed?
    else
      var e := c.decode(before[0]).value;
      if entries != [] && packBytes + e.size > PACK_BYTES then
        turn.Stop? && (more, bytes, size, after) == (entries, consumed, packBytes, before)
      else
        && !turn.Malformed? && (turn.Stop? ==> after == [])
        && (more, bytes, size, after) == (entries + [e], consumed + |before[0]|, packBytes + e.size, before[1..])
  }

  lemma TakeTurn(c: Codec, lines: seq<Bytes>, before: seq<Bytes>, entries: seq<Entry>, consumed: nat, packBytes: nat,
                 turn: Turn, more: seq<Entry>, bytes: nat, size: nat, after: seq<Bytes>)
    requires Reading(c, lines, Decoded(c, lines), entries, consumed, packBytes, before) && |entries| < PACK_OBJECTS
    requires Turned(c, before, entries, consumed, packBytes, turn, more, bytes, size, after)
    ensures turn.Go? ==> Reading(c, lines, Decoded(c, lines), more, bytes, size, after) && |more| == |entries| + 1
    ensures turn.Stop? ==> Delivered(c, lines, true, more, bytes, after)
    ensures turn.Malformed? ==> Delivered(c, lines, false, more, bytes, [])
  {
    if before == [] {
      PackEnds(c, lines, entries, consumed, packBytes, before);
    } else if c.decode(before[0]).None? {
      PackFails(c, lines, entries, consumed, packBytes, before);
    } else {
      var e := c.decode(before[0]).value;
      if entries != [] && packBytes + e.size > PACK_BYTES {
        PackEnds(c, lines, entries, consumed, packBytes, before);
      } else {
        ReadEntry(c, lines, Decoded(c, lines), entries, consumed, packBytes, before, e);
        if turn.Stop? {
          PackEnds(c, lines, more, bytes, size, after);
        }
      }
    }
  }

  lemma StartReading(c: Codec, lines: seq<Bytes>)
    ensures Reading(c, lines, Decoded(c, lines), [], 0, 0, lines)
  {
    assert Decoded(c, lines)[0..] == Decoded(c, lines) && lines[0..] == lines;
  }

  ghost predicate WellFormed(c: Codec, lines: seq<Bytes>) {
    |Decoded(c, lines)| == |lines|
  }

  lemma {:induction false} DecodedDrop(c: Codec, lines: seq<Bytes>, n: nat)
    requires n <= |Decoded(c, lines)|
    ensures Decoded(c, lines[n..]) == Decoded(c, lines)[n..]
  {
    if n > 0 {
      DecodedDrop(c, lines[1..], n - 1);
      assert lines[1..][n - 1..] == lines[n..];
      assert Decoded(c, lines)[1..] == Decoded(c, lines[1..]);
    }
  }

  /** From a well-formed inventory the reader delivers the packs of its entries. */
  lemma DeliversPack(c: Codec, lines: seq<Bytes>, ok: bool, entries: seq<Entry>, consumed: nat, unread: seq<Bytes>)
    requires WellFormed(c, lines) && Delivered(c, lines, ok, entries, consumed, unread)
    ensures ok && WellFormed(c, unread)
    ensures Packs(PackRule, Decoded(c, lines)) ==
            (if entries == [] then [] else [entries] + Packs(PackRule, Decoded(c, unread)))
    ensures entries == [] ==> lines == []
  {
    DecodedDrop(c, lines, |entries|);
  }

  /** The packs delivered so far and those still to come. */
  ghost predicate Scanned(c: Codec, all: seq<seq<Entry>>, packs: seq<seq<Entry>>, unread: seq<Bytes>) {
    WellFormed(c, unread) && all == packs + Packs(PackRule, Decoded(c, unread))
  }

  lemma ScanOne(c: Codec, all: seq<seq<Entry>>, packs: seq<seq<Entry>>, before: seq<Bytes>, ok: bool,
                entries: seq<Entry>, consumed: nat, unread: seq<Bytes>)
    requires Scanned(c, all, packs, before) && Delivered(c, before, ok, entries, consumed, unread)
    ensures ok && if entries == [] then all == packs else Scanned(c, all, packs + [entries], unread)
  {
    DeliversPack(c, before, ok, entries, consumed, unread);
    if entries != [] {
      var rest := Packs(PackRule, Decoded(c, unread));
      assert packs + ([entries] + rest) == (packs + [entries]) + rest;
    }
  }

  /** scanS3InventoryPacks: the packs up to number maxPacks, in order. It fails on
      malformed inventories only. */
  method ScanPacks(codec: Codec, file: Bytes, maxPacks: nat) returns (ok: bool, packs: seq<seq<Entry>>)
    ensures WellFormed(codec, SplitLines(file)) ==>
              ok && Firsts(packs, Packs(PackRule, Decoded(codec, SplitLines(file))), maxPacks)
  {
    packs := [];
    if maxPacks == 0 {
      return true, packs;
    }
    var reader := new PackReader(codec, file);
    ghost var good := WellFormed(codec, SplitLines(file));
    ghost var all := Packs(PackRule, Decoded(codec, SplitLines(file)));
    while true
      invariant reader.codec == codec && |packs| <= maxPacks
      invariant good ==> Scanned(codec, all, packs, reader.Unread())
      decreases maxPacks - |packs|
    {
      if |packs| == maxPacks {
        return true, packs;
      }
      ghost var before := reader.Unread();
      var entries, consumed;
      ok, entries, consumed := reader.Next();
      if good {
        ScanOne(codec, all, packs, before, ok, entries, consumed, if ok then reader.Unread() else []);
      }
      if !ok || entries == [] {
        return;
      }
      packs := packs + [entries];
    }
  }

  ghost predicate Firsts<T>(part: seq<T>, all: seq<T>, n: nat) {
    part == if n < |all| then all[..n] else all
  }

  /** A reader stands for these entries: it will deliver them and nothing else. */
  ghost predicate StandsFor(c: Codec, lines: seq<Bytes>, entries: seq<Entry>) {
    lines == SplitLines(InventoryText(c, entries))
  }

  /** After a pack, the old reader with its pending line and a fresh reader at the
      offset behind the pack stand for the same entries. */
  lemma NextFromOffset(c: Codec, all: seq<Entry>, ok: bool, entries: seq<Entry>, consumed: nat, unread: seq<Bytes>)
    requires Readable(c) && Delivered(c, SplitLines(InventoryText(c, all)), ok, entries, consumed, unread)
    ensures ok && entries == all[..PackLength(PackRule, all)]
    ensures consumed == |InventoryText(c, entries)| <= |InventoryText(c, all)|
    ensures InventoryText(c, all)[consumed..] == InventoryText(c, all[|entries|..])
    ensures StandsFor(c, unread, all[|entries|..])
  {
    InventoryDecodes(c, all);
    var n := |entries|;
    assert all == all[..n] + all[n..];
    InventorySplit(c, all[..n], all[n..]);
    LinesAfter(c, all, n);
    FlattenLength(unread);
    FlattenLength(SplitLines(InventoryText(c, all)));
  }

  lemma {:induction false} LinesAfter(c: Codec, all: seq<Entry>, n: nat)
    requires Readable(c) && n <= |all|
    ensures n <= |SplitLines(InventoryText(c, all))|
    ensures SplitLines(InventoryText(c, all))[n..] == SplitLines(InventoryText(c, all[n..]))
  {
    InventoryDecodes(c, all);
    if n == 0 {
      assert all[0..] == all;
    } else {
      LineLengthFirst(c.encode(all[0]), InventoryText(c, all[1..]));
      assert ReadBytes(InventoryText(c, all)) == (LineOf(c, all[0]), InventoryText(c, all[1..]));
      LinesAfter(c, all[1..], n - 1);
      assert all[1..][n - 1..] == all[n..];
      assert SplitLines(InventoryText(c, all))[n..] == SplitLines(InventoryText(c, all[1..]))[n - 1..];
    }
  }
}
