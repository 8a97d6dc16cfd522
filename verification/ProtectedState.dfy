/** The byte layout of the protected resume file, its writer and its reader
    (internal/services/dynamodb/data.go, 722-883). */
module ProtectedState {
  import opened ByteStrings
  import opened AttributeCodec
  import opened Cohort
  import opened ExternalMerge
  import opened Wrappers

  const Magic: Bytes := [70, 76, 67, 71, 83, 84, 49, 10]
  const HEADER_SIZE: nat := 13
  const MIN_SEALED: nat := 28
  const MAX_SEALED: nat := 134_217_728

  const META: Byte := 1
  const CANDIDATE: Byte := 2
  const TERMINAL: Byte := 255

  type RuleId = Bytes

  /** A page run as a checkpoint refers to it. */
  datatype RunRef = RunRef(path: File, digest: Bytes, size: nat)

  /** governedResumeState. An empty lastKey means there is no cursor. Capacity counts
      the smallest unit that a scan reports, so that its sum is exact. */
  datatype ResumeState = ResumeState(
    lastKey: Bytes,
    scanComplete: bool,
    runs: seq<RunRef>,
    items: int,
    pages: int,
    truncated: bool,
    sourceBytes: int,
    consumed: int,
    counts: map<RuleId, int>,
    selectionCount: int,
    scannedItems: int)

  /** AES-GCM under a key of the policy and capture, SHA-256 and encoding/json. */
  datatype Vault = Vault(
    seal: (Byte, nat, Bytes, Bytes) -> Bytes,
    unseal: (Byte, nat, Bytes) -> Option<Bytes>,
    hash: Bytes -> Bytes,
    encode: ResumeState -> Bytes,
    decode: Bytes -> Option<ResumeState>)

  /** What a sealed record guarantees: it opens to its plaintext, only for its own
      kind and ordinal, and is the 28 bytes of nonce and tag longer. */
  ghost predicate Seals(v: Vault) {
    && (forall kind, ordinal, nonce, p :: |v.seal(kind, ordinal, nonce, p)| == |p| + MIN_SEALED)
    && (forall kind, ordinal: nat, nonce, p | ordinal < Power256(8) ::
          v.unseal(kind, ordinal, v.seal(kind, ordinal, nonce, p)) == Some(p))
    && (forall k1, o1: nat, k2, o2: nat, nonce, p | o1 < Power256(8) && o2 < Power256(8) ::
          v.unseal(k2, o2, v.seal(k1, o1, nonce, p)).Some? ==> k1 == k2 && o1 == o2)
  }

  ghost predicate Sound(v: Vault) {
    && Seals(v)
    && (forall a, b :: v.hash(a) == v.hash(b) ==> a == b)
    && (forall s :: v.decode(v.encode(s)) == Some(s))
  }

  /** There are such functions, because ordinals have eight bytes: the 28 bytes hold
      kind and ordinal. */
  lemma SealsExist() returns (v: Vault)
    ensures Seals(v) && forall a, b :: v.hash(a) == v.hash(b) ==> a == b
  {
    var pad: Bytes := seq(19, _ => 0);
    v := Vault((kind, ordinal: nat, nonce, p) => [kind] + PutUint(8, ordinal) + pad + p,
               (kind, ordinal: nat, b) =>
                 if |b| >= MIN_SEALED && b[..9] == [kind] + PutUint(8, ordinal) then Some(b[MIN_SEALED..]) else None,
               b => b, s => [], b => None);
    forall kind, ordinal: nat, nonce, p
      ensures v.seal(kind, ordinal, nonce, p)[..9] == [kind] + PutUint(8, ordinal)
      ensures v.seal(kind, ordinal, nonce, p)[MIN_SEALED..] == p
    {
    }
    forall k1, o1: nat, k2, o2: nat, nonce, p | o1 < Power256(8) && o2 < Power256(8)
      ensures v.unseal(k2, o2, v.seal(k1, o1, nonce, p)).Some? ==> k1 == k2 && o1 == o2
    {
      var a, b := [k1] + PutUint(8, o1), [k2] + PutUint(8, o2);
      if a == b {
        assert a[0] == b[0] && a[1..] == PutUint(8, o1) && b[1..] == PutUint(8, o2);
        PutUintRoundTrip(8, o1);
        PutUintRoundTrip(8, o2);
      }
    }
  }

  // ---------------------------------------------------------------- records

  /** kind, big-endian ordinal and big-endian length. */
  function Header(kind: Byte, ordinal: nat, size: nat): (h: Bytes)
    ensures |h| == HEADER_SIZE
  {
    [kind] + PutUint(8, ordinal) + PutUint(4, size)
  }

  /** The sealed bytes with their header (writeProtectedRecord). */
  function Frame(kind: Byte, ordinal: nat, sealed: Bytes): Bytes {
    Header(kind, ordinal, |sealed|) + sealed
  }

  function HeaderKind(h: Bytes): Byte
    requires |h| == HEADER_SIZE
  { h[0] }

  function HeaderOrdinal(h: Bytes): nat
    requires |h| == HEADER_SIZE
  { FromBigEndian(h[1..9]) }

  function HeaderSize(h: Bytes): nat
    requires |h| == HEADER_SIZE
  { FromBigEndian(h[9..13]) }

  lemma HeaderRoundTrip(kind: Byte, ordinal: nat, size: nat)
    requires ordinal < Power256(8) && size < Power256(4)
    ensures var h := Header(kind, ordinal, size);
            HeaderKind(h) == kind && HeaderOrdinal(h) == ordinal && HeaderSize(h) == size
  {
    var o, n := PutUint(8, ordinal), PutUint(4, size);
    var h := Header(kind, ordinal, size);
    assert h[1..9] == o && h[9..13] == n;
    PutUintRoundTrip(8, ordinal);
    PutUintRoundTrip(4, size);
  }

  lemma HeaderOnto(h: Bytes)
    requires |h| == HEADER_SIZE
    ensures Header(HeaderKind(h), HeaderOrdinal(h), HeaderSize(h)) == h
  {
    var o, n := h[1..9], h[9..13];
    PutUintOnto(o);
    PutUintOnto(n);
    assert h == [h[0]] + o + n;
  }

  datatype Read = Corrupt | Read(kind: Byte, ordinal: nat, sealed: Bytes, plain: Bytes, rest: Bytes)

  /** readProtectedRecord. */
  function ReadRecord(v: Vault, r: Bytes): Read {
    if |r| < HEADER_SIZE then Corrupt
    else
      var h := r[..HEADER_SIZE];
      var size := HeaderSize(h);
      if size < MIN_SEALED || size > MAX_SEALED || |r| < HEADER_SIZE + size then Corrupt
      else
        var sealed := r[HEADER_SIZE..][..size];
        var plain := v.unseal(HeaderKind(h), HeaderOrdinal(h), sealed);
        if plain.None? then Corrupt
        else Read(HeaderKind(h), HeaderOrdinal(h), sealed, plain.value, r[HEADER_SIZE..][size..])
  }

  /** Reading undoes framing for every record within the reader's size limits. */
  lemma ReadFrame(v: Vault, kind: Byte, ordinal: nat, sealed: Bytes, rest: Bytes)
    requires ordinal < Power256(8) && |sealed| < Power256(4)
    ensures ReadRecord(v, Frame(kind, ordinal, sealed) + rest) ==
            if |sealed| < MIN_SEALED || |sealed| > MAX_SEALED || v.unseal(kind, ordinal, sealed).None? then Corrupt
            else Read(kind, ordinal, sealed, v.unseal(kind, ordinal, sealed).value, rest)
  {
    var h := Header(kind, ordinal, |sealed|);
    HeaderRoundTrip(kind, ordinal, |sealed|);
    var r := Frame(kind, ordinal, sealed) + rest;
    assert r[..HEADER_SIZE] == h && r[HEADER_SIZE..] == sealed + rest;
    assert (sealed + rest)[..|sealed|] == sealed && (sealed + rest)[|sealed|..] == rest;
  }

  /** Framing undoes reading: the accepted bytes are those of the record read. */
  lemma FrameRead(v: Vault, r: Bytes)
    requires ReadRecord(v, r).Read?
    ensures var rec := ReadRecord(v, r);
            && r == Frame(rec.kind, rec.ordinal, rec.sealed) + rec.rest
            && v.unseal(rec.kind, rec.ordinal, rec.sealed) == Some(rec.plain)
            && rec.ordinal < Power256(8) && |rec.sealed| <= MAX_SEALED
  {
    var rec := ReadRecord(v, r);
    hide FromBigEndian, PutUint;
    var h, t := r[..HEADER_SIZE], r[HEADER_SIZE..];
    HeaderOnto(h);
    BigEndianOnto(h[1..9]);
    assert r == h + t && t == rec.sealed + rec.rest;
  }

  // -------------------------------------------------------------- candidates

  /** The payload of a candidate record: two length-prefixed fields. */
  function CandidatePayload(c: Candidate): Bytes {
    PutUint(4, |c.rank|) + c.rank + PutUint(4, |c.value|) + c.value
  }

  function ParseCandidate(p: Bytes): Option<Candidate> {
    if |p| < 8 then None
    else
      var rankLen := FromBigEndian(p[..4]);
      if 8 + rankLen > |p| then None
      else
        var valueLen := FromBigEndian(p[4 + rankLen..8 + rankLen]);
        if 8 + rankLen + valueLen != |p| then None
        else Some(Candidate(p[4..4 + rankLen], p[8 + rankLen..]))
  }

  lemma CandidateRoundTrip(c: Candidate)
    requires |c.rank| < Power256(4) && |c.value| < Power256(4)
    ensures ParseCandidate(CandidatePayload(c)) == Some(c)
    ensures |CandidatePayload(c)| == c.Size() + 8
  {
    var a, b := PutUint(4, |c.rank|), PutUint(4, |c.value|);
    var p := CandidatePayload(c);
    assert p == a + c.rank + b + c.value;
    PutUintRoundTrip(4, |c.rank|);
    PutUintRoundTrip(4, |c.value|);
    assert p[..4] == a && p[4..4 + |c.rank|] == c.rank;
    assert p[4 + |c.rank|..8 + |c.rank|] == b && p[8 + |c.rank|..] == c.value;
  }

  // ------------------------------------------------------------- whole files

  /** One record of a state file: its header fields and its sealed bytes. */
  datatype Rec = Rec(kind: Byte, ordinal: nat, sealed: Bytes)

  function Frames(recs: seq<Rec>): Bytes {
    if recs == [] then [] else FrameOf(recs[0]) + Frames(recs[1..])
  }

  /** The candidate records of a sample, numbered from `ordinal` on. */
  function CandidateRecs(v: Vault, nonce: nat -> Bytes, sample: seq<Candidate>, ordinal: nat): (r: seq<Rec>)
    ensures |r| == |sample|
    ensures forall i | 0 <= i < |sample| :: r[i] ==
              Rec(CANDIDATE, ordinal + i,
                  v.seal(CANDIDATE, ordinal + i, nonce(ordinal + i), CandidatePayload(sample[i])))
  {
    seq(|sample|, i requires 0 <= i < |sample| =>
      Rec(CANDIDATE, ordinal + i, v.seal(CANDIDATE, ordinal + i, nonce(ordinal + i), CandidatePayload(sample[i]))))
  }

  function MetaRec(v: Vault, nonce: nat -> Bytes, state: ResumeState): Rec {
    Rec(META, 0, v.seal(META, 0, nonce(0), v.encode(state)))
  }

  function TerminalRec(v: Vault, nonce: nat -> Bytes, n: nat): Rec {
    Rec(TERMINAL, n + 1, v.seal(TERMINAL, n + 1, nonce(n + 1), []))
  }

  /** All records of a saved state, in file order. */
  function SavedRecs(v: Vault, nonce: nat -> Bytes, state: ResumeState, sample: seq<Candidate>): seq<Rec> {
    [MetaRec(v, nonce, state)] + CandidateRecs(v, nonce, sample, 1) + [TerminalRec(v, nonce, |sample|)]
  }

  function FileOf(v: Vault, nonce: nat -> Bytes, state: ResumeState, sample: seq<Candidate>): Bytes {
    Magic + Frames(SavedRecs(v, nonce, state, sample))
  }

  /** protectedStateRef, without the path. */
  datatype StateRef = StateRef(digest: Bytes, size: int)

  function RefOf(v: Vault, file: Bytes): StateRef {
    StateRef(v.hash(file), |file|)
  }

  lemma {:induction false} FramesSplit(a: seq<Rec>, b: seq<Rec>)
    ensures Frames(a + b) == Frames(a) + Frames(b)
  {
    if a == [] {
      assert a + b == b;
    } else {
      assert (a + b)[1..] == a[1..] + b;
      FramesSplit(a[1..], b);
    }
  }

  lemma FramesAppend(recs: seq<Rec>, rec: Rec)
    ensures Frames(recs + [rec]) == Frames(recs) + Frame(rec.kind, rec.ordinal, rec.sealed)
  {
    FramesSplit(recs, [rec]);
    assert [rec][1..] == [] && Frames([]) == [];
  }

  /** saveGovernedCheckpoint up to the rename: the bytes and their digest. */
  method Save(v: Vault, nonce: nat -> Bytes, unnumbered: ResumeState, sample: seq<Candidate>)
    returns (state: ResumeState, file: Bytes, ref: StateRef)
    ensures state == unnumbered.(selectionCount := |sample|)
    ensures file == FileOf(v, nonce, state, sample) && ref == RefOf(v, file)
  {
    state := unnumbered.(selectionCount := |sample|);
    ghost var saved := SavedRecs(v, nonce, state, sample);
    file := WriteRecord(v, nonce, Magic, saved, 0, META, v.encode(state));
    var ordinal := 1;
    for i := 0 to |sample|
      invariant ordinal == i + 1 && file == Magic + Frames(saved[..i + 1])
    {
      file := WriteRecord(v, nonce, file, saved, ordinal, CANDIDATE, CandidatePayload(sample[i]));
      ordinal := ordinal + 1;
    }
    file := WriteRecord(v, nonce, file, saved, ordinal, TERMINAL, []);
    assert saved[..|saved|] == saved;
    ref := RefOf(v, file);
  }

  /** writeProtectedRecord, at the end of what is written already. */
  method WriteRecord(v: Vault, nonce: nat -> Bytes, file: Bytes, ghost saved: seq<Rec>, ordinal: nat, kind: Byte,
                     plain: Bytes)
    returns (longer: Bytes)
    requires ordinal < |saved| && saved[ordinal] == Rec(kind, ordinal, v.seal(kind, ordinal, nonce(ordinal), plain))
    requires file == Magic + Frames(saved[..ordinal])
    ensures longer == Magic + Frames(saved[..ordinal + 1])
  {
    var sealed := v.seal(kind, ordinal, nonce(ordinal), plain);
    FramesAppend(saved[..ordinal], saved[ordinal]);
    assert saved[..ordinal + 1] == saved[..ordinal] + [saved[ordinal]];
    longer := file + Frame(kind, ordinal, sealed);
    Associate(Magic, Frames(saved[..ordinal]), Frame(kind, ordinal, sealed));
  }

  lemma Associate(a: Bytes, b: Bytes, c: Bytes)
    ensures a + b + c == a + (b + c)
  {
  }

  /** The candidate records number `expected` to `count`, and what follows them. */
  function ReadCandidates(v: Vault, r: Bytes, expected: nat, count: nat): Option<(seq<Candidate>, Bytes)>
    decreases count + 1 - expected
  {
    if expected > count then Some(([], r))
    else
      var rec := ReadRecord(v, r);
      if rec.Corrupt? || rec.kind != CANDIDATE || rec.ordinal != expected || ParseCandidate(rec.plain).None? then None
      else
        var others := ReadCandidates(v, rec.rest, expected + 1, count);
        if others.None? then None
        else Some(([ParseCandidate(rec.plain).value] + others.value.0, others.value.1))
  }

  /** The structural part of loadGovernedState, before the digest is compared:
      the state, the sample and the bytes left unread. */
  function ReadState(v: Vault, r: Bytes): Option<(ResumeState, seq<Candidate>)> {
    if |r| < |Magic| || r[..|Magic|] != Magic then None
    else
      var meta := ReadRecord(v, r[|Magic|..]);
      if meta.Corrupt? || meta.kind != META || meta.ordinal != 0 || v.decode(meta.plain).None? then None
      else
        var state := v.decode(meta.plain).value;
        if state.selectionCount < 0 then None
        else
          var candidates := ReadCandidates(v, meta.rest, 1, state.selectionCount);
          if candidates.None? then None
          else
            var end := ReadRecord(v, candidates.value.1);
            if end.Corrupt? || end.kind != TERMINAL || end.ordinal != state.selectionCount + 1
               || end.plain != [] || end.rest != []
            then None
            else Some((state, candidates.value.0))
  }

  /** loadGovernedState before validation: at most size + 1 bytes are read. */
  function LoadState(v: Vault, file: Bytes, ref: StateRef): Option<(ResumeState, seq<Candidate>)> {
    if ref.size <= |Magic| then None
    else
      var limited := if |file| <= ref.size + 1 then file else file[..ref.size + 1];
      var read := ReadState(v, limited);
      if read.None? || v.hash(limited) != ref.digest || |file| != ref.size then None else read
  }

  /** The loop of loadGovernedState over the candidate records. */
  method LoadGovernedState(v: Vault, file: Bytes, ref: StateRef)
    returns (r: Option<(ResumeState, seq<Candidate>)>)
    ensures r == LoadState(v, file, ref)
  {
    if ref.size <= |Magic| {
      return None;
    }
    var limited := if |file| <= ref.size + 1 then file else file[..ref.size + 1];
    if |limited| < |Magic| || limited[..|Magic|] != Magic {
      return None;
    }
    var rec := ReadRecord(v, limited[|Magic|..]);
    if rec.Corrupt? || rec.kind != META || rec.ordinal != 0 || v.decode(rec.plain).None? {
      return None;
    }
    var state := v.decode(rec.plain).value;
    if state.selectionCount < 0 {
      return None;
    }
    var rest := rec.rest;
    var sample: seq<Candidate> := [];
    var expected := 1;
    ContinuedNothing(ReadCandidates(v, rest, 1, state.selectionCount));
    ghost var all := ReadCandidates(v, rest, 1, state.selectionCount);
    while expected <= state.selectionCount
      invariant 1 <= expected <= state.selectionCount + 1
      invariant all == Continued(sample, ReadCandidates(v, rest, expected, state.selectionCount))
    {
      var next := ReadRecord(v, rest);
      if next.Corrupt? || next.kind != CANDIDATE || next.ordinal != expected || ParseCandidate(next.plain).None? {
        return None;
      }
      var c := ParseCandidate(next.plain).value;
      ContinuedStep(sample, c, ReadCandidates(v, next.rest, expected + 1, state.selectionCount));
      sample, rest, expected := sample + [c], next.rest, expected + 1;
    }
    assert sample + [] == sample;
    var end := ReadRecord(v, rest);
    if end.Corrupt? || end.kind != TERMINAL || end.ordinal != state.selectionCount + 1 || end.plain != []
        || end.rest != [] {
      return None;
    }
    if v.hash(limited) != ref.digest || |file| != ref.size {
      return None;
    }
    return Some((state, sample));
  }

  ghost function Continued(sample: seq<Candidate>, others: Option<(seq<Candidate>, Bytes)>)
    : Option<(seq<Candidate>, Bytes)>
  {
    if others.None? then None else Some((sample + others.value.0, others.value.1))
  }

  lemma ContinuedNothing(others: Option<(seq<Candidate>, Bytes)>)
    ensures Continued([], others) == others
  {
    if others.Some? {
      assert [] + others.value.0 == others.value.0;
    }
  }

  lemma ContinuedStep(sample: seq<Candidate>, c: Candidate, others: Option<(seq<Candidate>, Bytes)>)
    ensures Continued(sample, if others.None? then None else Some(([c] + others.value.0, others.value.1))) ==
            Continued(sample + [c], others)
  {
    if others.Some? {
      assert sample + ([c] + others.value.0) == (sample + [c]) + others.value.0;
    }
  }

  // -------------------------------------------------------------- round trip

  /** The reader's limit on every record, as a limit on what is saved. */
  predicate Fits(v: Vault, state: ResumeState, sample: seq<Candidate>) {
    && |v.encode(state)| + MIN_SEALED <= MAX_SEALED
    && CandidatesFit(sample, MAX_SEALED)
  }

  /** Every candidate record is at most `limit` bytes long once sealed. */
  predicate CandidatesFit(sample: seq<Candidate>, limit: nat) {
    forall i | 0 <= i < |sample| :: sample[i].Size() + 8 + MIN_SEALED <= limit
  }

  /** What fits the length fields of the layout at all. */
  predicate Addressable(v: Vault, state: ResumeState, sample: seq<Candidate>) {
    && |v.encode(state)| + MIN_SEALED < Power256(4)
    && |sample| + 1 < Power256(8)
    && CandidatesFit(sample, 4_294_967_295)
  }

  /** Reading a record that was just framed. */
  lemma ReadSealed(v: Vault, nonce: nat -> Bytes, kind: Byte, ordinal: nat, plain: Bytes, rest: Bytes)
    requires Sound(v) && ordinal < Power256(8) && |plain| + MIN_SEALED < Power256(4)
    ensures var sealed := v.seal(kind, ordinal, nonce(ordinal), plain);
            ReadRecord(v, Frame(kind, ordinal, sealed) + rest) ==
            if |plain| + MIN_SEALED > MAX_SEALED then Corrupt else Read(kind, ordinal, sealed, plain, rest)
  {
    ReadFrame(v, kind, ordinal, v.seal(kind, ordinal, nonce(ordinal), plain), rest);
  }

  lemma FourBytes()
    ensures Power256(4) == 4_294_967_296
  {
  }

  function FrameOf(rec: Rec): Bytes {
    Frame(rec.kind, rec.ordinal, rec.sealed)
  }

  /** However the file goes on, the record is refused or gives its candidate. */
  ghost predicate Yields(v: Vault, rec: Rec, c: Candidate, ordinal: nat) {
    forall tail {:trigger FrameOf(rec) + tail} ::
      var read := ReadRecord(v, FrameOf(rec) + tail);
      if c.Size() + 8 + MIN_SEALED > MAX_SEALED then read == Corrupt
      else && read.Read? && read.kind == CANDIDATE && read.ordinal == ordinal && read.rest == tail
           && ParseCandidate(read.plain) == Some(c)
  }

  lemma SavedCandidateYields(v: Vault, nonce: nat -> Bytes, c: Candidate, ordinal: nat)
    requires Sound(v) && ordinal < Power256(8) && c.Size() + 8 + MIN_SEALED <= 4_294_967_295
    ensures var sealed := v.seal(CANDIDATE, ordinal, nonce(ordinal), CandidatePayload(c));
            Yields(v, Rec(CANDIDATE, ordinal, sealed), c, ordinal)
  {
    FourBytes();
    CandidateRoundTrip(c);
    var rec := Rec(CANDIDATE, ordinal, v.seal(CANDIDATE, ordinal, nonce(ordinal), CandidatePayload(c)));
    forall tail
      ensures ReadRecord(v, FrameOf(rec) + tail) ==
              if c.Size() + 8 + MIN_SEALED > MAX_SEALED then Corrupt
              else Read(CANDIDATE, ordinal, rec.sealed, CandidatePayload(c), tail)
    {
      ReadSealed(v, nonce, CANDIDATE, ordinal, CandidatePayload(c), tail);
    }
  }

  ghost predicate AllYield(v: Vault, recs: seq<Rec>, sample: seq<Candidate>, ordinal: nat) {
    |recs| == |sample| && forall i | 0 <= i < |recs| :: Yields(v, recs[i], sample[i], ordinal + i)
  }

  lemma AllYieldTail(v: Vault, recs: seq<Rec>, sample: seq<Candidate>, ordinal: nat)
    requires AllYield(v, recs, sample, ordinal) && sample != []
    ensures AllYield(v, recs[1..], sample[1..], ordinal + 1)
  {
    forall i | 0 <= i < |sample| - 1 ensures Yields(v, recs[1..][i], sample[1..][i], ordinal + 1 + i) {
      assert Yields(v, recs[i + 1], sample[i + 1], ordinal + (i + 1));
    }
  }

  /** One unfolding of the candidate loop. */
  lemma ReadHead(v: Vault, recs: seq<Rec>, sample: seq<Candidate>, expected: nat, count: nat, rest: Bytes)
    requires AllYield(v, recs, sample, expected) && sample != [] && expected <= count
    ensures ReadCandidates(v, Frames(recs) + rest, expected, count) ==
            if sample[0].Size() + 8 + MIN_SEALED > MAX_SEALED then None
            else Continued([sample[0]], ReadCandidates(v, Frames(recs[1..]) + rest, expected + 1, count))
  {
    var tail := Frames(recs[1..]) + rest;
    Associate(FrameOf(recs[0]), Frames(recs[1..]), rest);
    assert Yields(v, recs[0], sample[0], expected + 0);
    assert Frames(recs) + rest == FrameOf(recs[0]) + tail;
  }

  /** What reading these records gives. */
  ghost predicate ReadsBack(sample: seq<Candidate>, rest: Bytes, result: Option<(seq<Candidate>, Bytes)>) {
    result == if CandidatesFit(sample, MAX_SEALED) then Some((sample, rest)) else None
  }

  lemma {:induction false} ReadYielded(v: Vault, recs: seq<Rec>, sample: seq<Candidate>, expected: nat, count: nat,
                                       r: Bytes, rest: Bytes, result: Option<(seq<Candidate>, Bytes)>)
    requires AllYield(v, recs, sample, expected) && count + 1 == expected + |sample| && r == Frames(recs) + rest
    requires result == ReadCandidates(v, r, expected, count)
    ensures ReadsBack(sample, rest, result)
    decreases |sample|
  {
    hide ReadRecord, ParseCandidate, Yields, CandidatesFit;
    if sample == [] {
      assert r == rest;
      NothingFits();
    } else {
      var tail := Frames(recs[1..]) + rest;
      var others := ReadCandidates(v, tail, expected + 1, count);
      ReadYielded(v, recs[1..], sample[1..], expected + 1, count, tail, rest, others) by {
        AllYieldTail(v, recs, sample, expected);
      }
      YieldedStep(v, recs, sample, expected, count, rest, others, result);
    }
  }

  lemma NothingFits()
    ensures CandidatesFit([], MAX_SEALED)
  {
  }

  lemma YieldedStep(v: Vault, recs: seq<Rec>, sample: seq<Candidate>, expected: nat, count: nat, rest: Bytes,
                    others: Option<(seq<Candidate>, Bytes)>, result: Option<(seq<Candidate>, Bytes)>)
    requires AllYield(v, recs, sample, expected) && sample != [] && expected <= count
    requires others == ReadCandidates(v, Frames(recs[1..]) + rest, expected + 1, count)
             && ReadsBack(sample[1..], rest, others)
    requires result == ReadCandidates(v, Frames(recs) + rest, expected, count)
    ensures ReadsBack(sample, rest, result)
  {
    ReadHead(v, recs, sample, expected, count, rest);
    CandidatesFitCons(sample, MAX_SEALED);
  }

  lemma ReadSavedCandidates(v: Vault, nonce: nat -> Bytes, sample: seq<Candidate>, rest: Bytes)
    requires Sound(v) && |sample| + 1 < Power256(8) && CandidatesFit(sample, 4_294_967_295)
    ensures ReadCandidates(v, Frames(CandidateRecs(v, nonce, sample, 1)) + rest, 1, |sample|) ==
            if CandidatesFit(sample, MAX_SEALED) then Some((sample, rest)) else None
  {
    var recs := CandidateRecs(v, nonce, sample, 1);
    assert AllYield(v, recs, sample, 1) by {
      forall i | 0 <= i < |recs| ensures Yields(v, recs[i], sample[i], 1 + i) {
        SavedCandidateYields(v, nonce, sample[i], 1 + i);
      }
    }
    ReadYielded(v, recs, sample, 1, |sample|, Frames(recs) + rest, rest,
                ReadCandidates(v, Frames(recs) + rest, 1, |sample|));
  }

  lemma CandidatesFitCons(sample: seq<Candidate>, limit: nat)
    requires sample != []
    ensures sample == [sample[0]] + sample[1..]
    ensures CandidatesFit(sample, limit) <==>
            sample[0].Size() + 8 + MIN_SEALED <= limit && CandidatesFit(sample[1..], limit)
  {
    assert forall i | 1 <= i < |sample| :: sample[i] == sample[1..][i - 1];
  }

  lemma FramesBetween(first: Rec, middle: seq<Rec>, last: Rec)
    ensures Frames([first] + middle + [last]) ==
            Frame(first.kind, first.ordinal, first.sealed)
                + (Frames(middle) + Frame(last.kind, last.ordinal, last.sealed))
  {
    assert [first] + middle + [last] == [first] + (middle + [last]);
    assert ([first] + (middle + [last]))[1..] == middle + [last];
    FramesAppend(middle, last);
  }

  /** Reading a saved file, without its reference. */
  lemma ReadSaved(v: Vault, nonce: nat -> Bytes, state: ResumeState, sample: seq<Candidate>)
    requires Sound(v) && Addressable(v, state, sample) && state.selectionCount == |sample|
    ensures ReadState(v, FileOf(v, nonce, state, sample)) ==
            if Fits(v, state, sample) then Some((state, sample)) else None
  {
    var candidates := Frames(CandidateRecs(v, nonce, sample, 1));
    var end := TerminalRec(v, nonce, |sample|);
    var last := Frame(TERMINAL, end.ordinal, end.sealed);
    FramesBetween(MetaRec(v, nonce, state), CandidateRecs(v, nonce, sample, 1), end);
    FourBytes();
    var file := FileOf(v, nonce, state, sample);
    assert file[..|Magic|] == Magic && file[|Magic|..] == Frames(SavedRecs(v, nonce, state, sample));
    ReadSealed(v, nonce, META, 0, v.encode(state), candidates + last);
    ReadSavedCandidates(v, nonce, sample, last);
    ReadEnd(v, nonce, |sample|);
  }

  lemma ReadEnd(v: Vault, nonce: nat -> Bytes, n: nat)
    requires Sound(v) && n + 1 < Power256(8)
    ensures var end := TerminalRec(v, nonce, n);
            ReadRecord(v, Frame(TERMINAL, end.ordinal, end.sealed)) == Read(TERMINAL, n + 1, end.sealed, [], [])
  {
    var end := TerminalRec(v, nonce, n);
    FourBytes();
    assert Frame(TERMINAL, end.ordinal, end.sealed) + [] == Frame(TERMINAL, end.ordinal, end.sealed);
    ReadSealed(v, nonce, TERMINAL, n + 1, [], []);
  }

  /** Loading what was saved gives it back exactly when every record fits the
      reader's limit, which the writer does not check. */
  lemma LoadSaved(v: Vault, nonce: nat -> Bytes, state: ResumeState, sample: seq<Candidate>)
    requires Sound(v) && Addressable(v, state, sample) && state.selectionCount == |sample|
    ensures var file := FileOf(v, nonce, state, sample);
            LoadState(v, file, RefOf(v, file)) == if Fits(v, state, sample) then Some((state, sample)) else None
  {
    var file := FileOf(v, nonce, state, sample);
    ReadSaved(v, nonce, state, sample);
    FramesBetween(MetaRec(v, nonce, state), CandidateRecs(v, nonce, sample, 1), TerminalRec(v, nonce, |sample|));
    assert |file| > |Magic|;
  }

  // --------------------------------------------------------------- rejection

  /** Only the file a reference was made for loads under that reference. */
  lemma OnlyReferencedFileLoads(v: Vault, saved: Bytes, file: Bytes)
    requires Sound(v) && LoadState(v, file, RefOf(v, saved)).Some?
    ensures file == saved
  {
    assert |file| == |saved|;
    assert v.hash(file) == v.hash(saved);
  }

  /** A record whose header fields fit their width. */
  predicate Wellformed(rec: Rec) {
    rec.ordinal < Power256(8) && |rec.sealed| < Power256(4)
  }

  lemma FrameIsPrefixFree(a: Rec, b: Rec, x: Bytes, y: Bytes)
    requires Wellformed(a) && Wellformed(b)
    requires Frame(a.kind, a.ordinal, a.sealed) + x == Frame(b.kind, b.ordinal, b.sealed) + y
    ensures a == b && x == y
  {
    var h, k := Header(a.kind, a.ordinal, |a.sealed|), Header(b.kind, b.ordinal, |b.sealed|);
    HeaderRoundTrip(a.kind, a.ordinal, |a.sealed|);
    HeaderRoundTrip(b.kind, b.ordinal, |b.sealed|);
    Associate(h, a.sealed, x);
    Associate(k, b.sealed, y);
    var r := h + (a.sealed + x);
    assert r == k + (b.sealed + y);
    assert h == r[..HEADER_SIZE] == k;
    assert a.sealed + x == r[HEADER_SIZE..] == b.sealed + y;
    assert a.sealed == (a.sealed + x)[..|a.sealed|] == b.sealed;
    assert x == (a.sealed + x)[|a.sealed|..] == y;
  }

  /** Two record lists in the same bytes agree as far as both go. */
  lemma {:induction false} FramesAgree(a: seq<Rec>, b: seq<Rec>, x: Bytes, y: Bytes)
    requires forall i | 0 <= i < |a| :: Wellformed(a[i])
    requires forall i | 0 <= i < |b| :: Wellformed(b[i])
    requires Frames(a) + x == Frames(b) + y
    ensures a <= b || b <= a
  {
    if a != [] && b != [] {
      Associate(Frame(a[0].kind, a[0].ordinal, a[0].sealed), Frames(a[1..]), x);
      Associate(Frame(b[0].kind, b[0].ordinal, b[0].sealed), Frames(b[1..]), y);
      FrameIsPrefixFree(a[0], b[0], Frames(a[1..]) + x, Frames(b[1..]) + y);
      FramesAgree(a[1..], b[1..], x, y);
      assert a == [a[0]] + a[1..] && b == [b[0]] + b[1..];
    }
  }

  /** The record opens under its own kind and number. */
  ghost predicate Accepted(v: Vault, rec: Rec, kind: Byte, ordinal: nat) {
    && Wellformed(rec) && rec.kind == kind && rec.ordinal == ordinal
    && v.unseal(kind, ordinal, rec.sealed).Some?
  }

  /** The records of an accepted file: numbered without gaps, the metadata first
      and the terminal record last, as many as the metadata says. */
  ghost predicate AcceptedFile(v: Vault, recs: seq<Rec>, state: ResumeState) {
    && 0 <= state.selectionCount && |recs| == state.selectionCount + 2
    && Accepted(v, recs[0], META, 0)
    && v.decode(v.unseal(META, 0, recs[0].sealed).value) == Some(state)
    && (forall i | 1 <= i < |recs| - 1 :: Accepted(v, recs[i], CANDIDATE, i))
    && Accepted(v, recs[|recs| - 1], TERMINAL, |recs| - 1)
  }

  lemma ReadAccepts(v: Vault, r: Bytes) returns (rec: Rec)
    requires ReadRecord(v, r).Read?
    ensures var read := ReadRecord(v, r);
            && rec == Rec(read.kind, read.ordinal, read.sealed) && r == FrameOf(rec) + read.rest
            && Accepted(v, rec, read.kind, read.ordinal)
            && v.unseal(rec.kind, rec.ordinal, rec.sealed) == Some(read.plain)
  {
    var read := ReadRecord(v, r);
    FrameRead(v, r);
    FourBytes();
    rec := Rec(read.kind, read.ordinal, read.sealed);
  }

  lemma CandidateStep(v: Vault, r: Bytes, expected: nat, count: nat, result: (seq<Candidate>, Bytes))
    returns (first: Rec, rest: Bytes, others: (seq<Candidate>, Bytes))
    requires expected <= count && ReadCandidates(v, r, expected, count) == Some(result)
    ensures Accepted(v, first, CANDIDATE, expected) && r == FrameOf(first) + rest
    ensures ReadCandidates(v, rest, expected + 1, count) == Some(others) && result.1 == others.1
  {
    first := ReadAccepts(v, r);
    rest := ReadRecord(v, r).rest;
    others := ReadCandidates(v, rest, expected + 1, count).value;
  }

  lemma {:induction false} CandidatesAccepted(v: Vault, r: Bytes, expected: nat, count: nat,
                                              result: (seq<Candidate>, Bytes))
    returns (recs: seq<Rec>)
    requires expected <= count + 1 && ReadCandidates(v, r, expected, count) == Some(result)
    ensures Lists(v, recs, expected, count, r, result.1)
    decreases count + 1 - expected
  {
    if expected == count + 1 {
      recs := [];
      NothingListed(v, expected, count, r);
    } else {
      var first, rest, next := CandidateStep(v, r, expected, count, result);
      var others := CandidatesAccepted(v, rest, expected + 1, count, next);
      recs := [first] + others;
      OneMoreListed(v, first, others, expected, count, r, rest, result.1);
    }
  }

  /** Candidate records numbered from `ordinal` on. */
  ghost predicate AcceptedFrom(v: Vault, recs: seq<Rec>, ordinal: nat) {
    forall i | 0 <= i < |recs| :: Accepted(v, recs[i], CANDIDATE, ordinal + i)
  }

  /** The candidate records up to number `count`, followed by `tail`. */
  ghost predicate Lists(v: Vault, recs: seq<Rec>, ordinal: nat, count: nat, r: Bytes, tail: Bytes) {
    |recs| == count + 1 - ordinal && r == Frames(recs) + tail && AcceptedFrom(v, recs, ordinal)
  }

  lemma NothingListed(v: Vault, ordinal: nat, count: nat, r: Bytes)
    requires ordinal == count + 1
    ensures Lists(v, [], ordinal, count, r, r)
  {
    assert [] + r == r;
  }

  lemma OneMoreListed(v: Vault, first: Rec, others: seq<Rec>, ordinal: nat, count: nat, r: Bytes, rest: Bytes,
                      tail: Bytes)
    requires Accepted(v, first, CANDIDATE, ordinal) && r == FrameOf(first) + rest
    requires Lists(v, others, ordinal + 1, count, rest, tail)
    ensures Lists(v, [first] + others, ordinal, count, r, tail)
  {
    forall i | 1 <= i <= |others| ensures Accepted(v, ([first] + others)[i], CANDIDATE, ordinal + i) {
      assert Accepted(v, others[i - 1], CANDIDATE, ordinal + 1 + (i - 1));
    }
    assert ([first] + others)[1..] == others;
    Associate(FrameOf(first), Frames(others), tail);
  }

  /** What every accepted file looks like, whatever its reference. */
  lemma FileAccepted(v: Vault, file: Bytes, state: ResumeState) returns (recs: seq<Rec>)
    requires ReadState(v, file).Some? && ReadState(v, file).value.0 == state
    ensures file == Magic + Frames(recs) && AcceptedFile(v, recs, state)
  {
    var first, afterMeta, result, last := FileParts(v, file, state);
    var middle := CandidatesAccepted(v, afterMeta, 1, state.selectionCount, result);
    recs := [first] + middle + [last];
    FramesBetween(first, middle, last);
    AcceptedWhole(v, first, middle, last, state);
    assert file == Magic + (FrameOf(first) + (Frames(middle) + FrameOf(last)));
  }

  lemma FileParts(v: Vault, file: Bytes, state: ResumeState)
    returns (first: Rec, afterMeta: Bytes, result: (seq<Candidate>, Bytes), last: Rec)
    requires ReadState(v, file).Some? && ReadState(v, file).value.0 == state
    ensures file == Magic + (FrameOf(first) + afterMeta) && result.1 == FrameOf(last)
    ensures 0 <= state.selectionCount && ReadCandidates(v, afterMeta, 1, state.selectionCount) == Some(result)
    ensures Accepted(v, first, META, 0) && v.decode(v.unseal(META, 0, first.sealed).value) == Some(state)
    ensures Accepted(v, last, TERMINAL, state.selectionCount + 1)
  {
    var r := file[|Magic|..];
    assert file == Magic + r;
    first := ReadAccepts(v, r);
    afterMeta := ReadRecord(v, r).rest;
    result := ReadCandidates(v, afterMeta, 1, state.selectionCount).value;
    last := ReadAccepts(v, result.1);
    assert FrameOf(last) + [] == FrameOf(last);
  }

  lemma AcceptedWhole(v: Vault, first: Rec, middle: seq<Rec>, last: Rec, state: ResumeState)
    requires Accepted(v, first, META, 0) && v.decode(v.unseal(META, 0, first.sealed).value) == Some(state)
    requires |middle| == state.selectionCount && AcceptedFrom(v, middle, 1)
    requires Accepted(v, last, TERMINAL, |middle| + 1)
    ensures AcceptedFile(v, [first] + middle + [last], state)
  {
    var recs := [first] + middle + [last];
    forall i | 1 <= i < |recs| - 1 ensures Accepted(v, recs[i], CANDIDATE, i) {
      assert recs[i] == middle[i - 1] && Accepted(v, middle[i - 1], CANDIDATE, 1 + (i - 1));
    }
  }

  lemma SavedWellformed(v: Vault, nonce: nat -> Bytes, state: ResumeState, sample: seq<Candidate>)
    requires Sound(v) && Addressable(v, state, sample)
    ensures forall i | 0 <= i < |SavedRecs(v, nonce, state, sample)| ::
              Wellformed(SavedRecs(v, nonce, state, sample)[i])
  {
    FourBytes();
    forall i | 0 <= i < |sample| ensures Wellformed(CandidateRecs(v, nonce, sample, 1)[i]) {
      CandidateRoundTrip(sample[i]);
    }
  }

  /** An accepted file and a saved one that start with the same metadata record
      have equally many records. */
  lemma SameCount(v: Vault, nonce: nat -> Bytes, state: ResumeState, sample: seq<Candidate>, recs: seq<Rec>,
                  read: ResumeState)
    requires Sound(v) && state.selectionCount == |sample| && AcceptedFile(v, recs, read)
    requires recs[0].sealed == MetaRec(v, nonce, state).sealed
    ensures |recs| == |SavedRecs(v, nonce, state, sample)|
  {
    assert v.unseal(META, 0, recs[0].sealed) == Some(v.encode(state));
  }

  /** A file cut short anywhere, or with bytes after its end, does not load, under
      any reference. */
  lemma TruncatedOrExtendedIsRejected(v: Vault, nonce: nat -> Bytes, state: ResumeState, sample: seq<Candidate>,
                                      file: Bytes)
    requires Sound(v) && Addressable(v, state, sample) && state.selectionCount == |sample|
    requires file <= FileOf(v, nonce, state, sample) || FileOf(v, nonce, state, sample) <= file
    requires file != FileOf(v, nonce, state, sample)
    ensures ReadState(v, file).None?
  {
    if ReadState(v, file).Some? {
      var read := ReadState(v, file).value.0;
      var recs := FileAccepted(v, file, read);
      ComparableFile(v, nonce, state, sample, file, FileOf(v, nonce, state, sample), recs, read);
    }
  }

  lemma ComparableFile(v: Vault, nonce: nat -> Bytes, state: ResumeState, sample: seq<Candidate>, file: Bytes,
                       saved: Bytes, recs: seq<Rec>, read: ResumeState)
    requires Sound(v) && Addressable(v, state, sample) && state.selectionCount == |sample|
    requires AcceptedFile(v, recs, read) && file == Magic + Frames(recs)
    requires saved == FileOf(v, nonce, state, sample) && (file <= saved || saved <= file)
    ensures file == saved
  {
    var x, y := Remainders(file, saved);
    ComparableIsSaved(v, nonce, state, sample, recs, read, x, y);
  }

  lemma Remainders(a: Bytes, b: Bytes) returns (x: Bytes, y: Bytes)
    requires a <= b || b <= a
    ensures a + x == b + y
  {
    if a <= b {
      x, y := b[|a|..], [];
      assert a + x == b == b + [];
    } else {
      x, y := [], a[|b|..];
      assert b + y == a == a + [];
    }
  }

  lemma ComparableIsSaved(v: Vault, nonce: nat -> Bytes, state: ResumeState, sample: seq<Candidate>,
                          recs: seq<Rec>, read: ResumeState, x: Bytes, y: Bytes)
    requires Sound(v) && Addressable(v, state, sample) && state.selectionCount == |sample|
    requires AcceptedFile(v, recs, read)
    requires Magic + Frames(recs) + x == FileOf(v, nonce, state, sample) + y
    ensures recs == SavedRecs(v, nonce, state, sample)
  {
    SavedWellformed(v, nonce, state, sample);
    AcceptedWellformed(v, recs, read);
    ComparableFrames(recs, SavedRecs(v, nonce, state, sample), x, y);
    SameStart(v, nonce, state, sample, recs, read);
  }

  lemma AcceptedWellformed(v: Vault, recs: seq<Rec>, state: ResumeState)
    requires AcceptedFile(v, recs, state)
    ensures forall i | 0 <= i < |recs| ::
              Wellformed(recs[i]) && v.unseal(recs[i].kind, recs[i].ordinal, recs[i].sealed).Some?
    ensures forall i | 0 <= i < |recs| :: recs[i].ordinal == i
  {
    forall i | 1 <= i < |recs| - 1 ensures Accepted(v, recs[i], CANDIDATE, i) {}
  }

  /** Two comparable record lists, one accepted and one saved, are the same. */
  lemma SameStart(v: Vault, nonce: nat -> Bytes, state: ResumeState, sample: seq<Candidate>, recs: seq<Rec>,
                  read: ResumeState)
    requires Sound(v) && state.selectionCount == |sample| && AcceptedFile(v, recs, read)
    requires recs <= SavedRecs(v, nonce, state, sample) || SavedRecs(v, nonce, state, sample) <= recs
    ensures recs == SavedRecs(v, nonce, state, sample)
  {
    var all := SavedRecs(v, nonce, state, sample);
    assert recs[0] == all[0];
    SameCount(v, nonce, state, sample, recs, read);
  }

  lemma ComparableFrames(a: seq<Rec>, b: seq<Rec>, x: Bytes, y: Bytes)
    requires forall i | 0 <= i < |a| :: Wellformed(a[i])
    requires forall i | 0 <= i < |b| :: Wellformed(b[i])
    requires Magic + Frames(a) + x == Magic + Frames(b) + y
    ensures a <= b || b <= a
  {
    Associate(Magic, Frames(a), x);
    Associate(Magic, Frames(b), y);
    assert Frames(a) + x == (Magic + (Frames(a) + x))[|Magic|..] == Frames(b) + y;
    FramesAgree(a, b, x, y);
  }

  /** Dropping, repeating, reordering or relabelling records is rejected: a file
      whose sealed payloads all come from one saved file loads, under any
      reference, only if it is that file. */
  lemma SplicedFileIsRejected(v: Vault, nonce: nat -> Bytes, state: ResumeState, sample: seq<Candidate>, recs: seq<Rec>)
    requires Sound(v) && Addressable(v, state, sample) && state.selectionCount == |sample|
    requires forall rec | rec in recs :: Wellformed(rec) && FromSaved(rec, SavedRecs(v, nonce, state, sample))
    requires recs != SavedRecs(v, nonce, state, sample)
    ensures ReadState(v, Magic + Frames(recs)).None?
  {
    var file := Magic + Frames(recs);
    if ReadState(v, file).Some? {
      var accepted := FileAccepted(v, file, ReadState(v, file).value.0);
      AcceptedWellformed(v, accepted, ReadState(v, file).value.0);
      assert forall i | 0 <= i < |recs| :: recs[i] in recs;
      assert file + [] == file;
      ComparableFrames(recs, accepted, [], []);
      assert Frames(recs) == file[|Magic|..] == Frames(accepted);
      SameFramesSameRecs(recs, accepted);
      AllInPlace(v, nonce, state, sample, recs, ReadState(v, file).value.0);
    }
  }

  lemma AllInPlace(v: Vault, nonce: nat -> Bytes, state: ResumeState, sample: seq<Candidate>, recs: seq<Rec>,
                   read: ResumeState)
    requires Sound(v) && |sample| + 1 < Power256(8) && state.selectionCount == |sample| && AcceptedFile(v, recs, read)
    requires forall i | 0 <= i < |recs| :: FromSaved(recs[i], SavedRecs(v, nonce, state, sample))
    ensures recs == SavedRecs(v, nonce, state, sample)
  {
    var all := SavedRecs(v, nonce, state, sample);
    AcceptedWellformed(v, recs, read);
    forall i | 0 <= i < |recs| ensures i < |all| && recs[i] == all[i] {
      OwnPlace(v, nonce, state, sample, recs[i]);
    }
    SameCount(v, nonce, state, sample, recs, read);
  }

  /** The sealed bytes are those of one of the saved records. */
  ghost predicate FromSaved(rec: Rec, saved: seq<Rec>) {
    exists j :: 0 <= j < |saved| && rec.sealed == saved[j].sealed
  }

  /** A record that opens and has a saved payload is that saved record. */
  lemma OwnPlace(v: Vault, nonce: nat -> Bytes, state: ResumeState, sample: seq<Candidate>, rec: Rec)
    requires Sound(v) && |sample| + 1 < Power256(8) && FromSaved(rec, SavedRecs(v, nonce, state, sample))
    requires Wellformed(rec) && v.unseal(rec.kind, rec.ordinal, rec.sealed).Some?
    ensures rec.ordinal < |SavedRecs(v, nonce, state, sample)|
    ensures rec == SavedRecs(v, nonce, state, sample)[rec.ordinal]
  {
    var saved := SavedRecs(v, nonce, state, sample);
    var j :| 0 <= j < |saved| && rec.sealed == saved[j].sealed;
    assert saved[j].ordinal == j;
    assert exists p :: saved[j].sealed == v.seal(saved[j].kind, j, nonce(j), p);
  }

  lemma SameFramesSameRecs(a: seq<Rec>, b: seq<Rec>)
    requires Frames(a) == Frames(b)
    requires a <= b || b <= a
    ensures a == b
  {
    if |a| < |b| {
      MoreRecsMoreBytes(a, b);
    } else if |b| < |a| {
      MoreRecsMoreBytes(b, a);
    }
  }

  lemma MoreRecsMoreBytes(a: seq<Rec>, b: seq<Rec>)
    requires a <= b && |a| < |b|
    ensures |Frames(a)| < |Frames(b)|
  {
    var rest := b[|a|..];
    assert b == a + rest;
    FramesSplit(a, rest);
    assert |Frames(rest)| >= |FrameOf(rest[0])| >= HEADER_SIZE;
  }
}
