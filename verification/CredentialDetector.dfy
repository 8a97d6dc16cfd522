/** The sliding-window stream detector of internal/bundle/render.go. */
module CredentialDetector {
  import opened ByteStrings
  import opened Sequences

  const WINDOW: nat := 256

  /** The strings a pattern matches, each judged on its own bytes. A regular expression
      also decodes runes, so where a write cuts one, its bytes count as they stand. */
  type Pattern = Bytes -> bool

  /** pattern.Match: some part of s is matched. */
  predicate Matches(pattern: Pattern, s: Bytes) {
    exists i, j | 0 <= i <= j <= |s| :: pattern(s[i..j])
  }

  predicate Found(patterns: seq<Pattern>, s: Bytes) {
    exists k | 0 <= k < |patterns| :: Matches(patterns[k], s)
  }

  /** Some part of s of at most `limit` bytes is matched. */
  ghost predicate FoundWithin(patterns: seq<Pattern>, s: Bytes, limit: nat) {
    exists k, i, j | 0 <= k < |patterns| && 0 <= i <= j <= |s| && j - i <= limit :: patterns[k](s[i..j])
  }

  function Window(s: Bytes): Bytes {
    if |s| > WINDOW then s[|s| - WINDOW..] else s
  }

  /** The state between two writes; only the fact of an error matters. */
  datatype State = State(tail: Bytes, found: bool)

  /** What Write does to the state. */
  function Absorb(patterns: seq<Pattern>, d: State, p: Bytes): State {
    if d.found then d else State(Window(d.tail + p), Found(patterns, d.tail + p))
  }

  function Scan(patterns: seq<Pattern>, pieces: seq<Bytes>): State {
    if pieces == [] then State([], false)
    else Absorb(patterns, Scan(patterns, pieces[..|pieces| - 1]), pieces[|pieces| - 1])
  }

  class Detector {
    const patterns: seq<Pattern>
    var tail: Bytes
    var err: bool

    constructor (patterns: seq<Pattern>)
      ensures this.patterns == patterns && tail == [] && !err
    {
      this.patterns, tail, err := patterns, [], false;
    }

    method Write(p: Bytes)
      modifies this
      ensures State(tail, err) == Absorb(patterns, State(old(tail), old(err)), p)
    {
      if err {
        return;
      }
      tail := tail + p;
      for k := 0 to |patterns|
        invariant tail == old(tail) + p && err == exists n | 0 <= n < k :: Matches(patterns[n], tail)
      {
        if Matches(patterns[k], tail) {
          err := true;
          break;
        }
      }
      if |tail| > WINDOW {
        tail := tail[|tail| - WINDOW..];
      }
    }
  }

  lemma FoundInPart(patterns: seq<Pattern>, s: Bytes, from: nat, to: nat)
    requires from <= to <= |s| && Found(patterns, s[from..to])
    ensures Found(patterns, s)
  {
    var k :| 0 <= k < |patterns| && Matches(patterns[k], s[from..to]);
    var i, j :| 0 <= i <= j <= to - from && patterns[k](s[from..to][i..j]);
    var a, b := from + i, from + j;
    SlicedTwice(s, from, to, i, j);
    assert patterns[k](s[a..b]);
  }

  lemma SlicedTwice(s: Bytes, from: nat, to: nat, i: nat, j: nat)
    requires from <= to <= |s| && i <= j <= to - from
    ensures s[from..to][i..j] == s[from + i..from + j]
  {
    var part := s[from..to];
    assert forall k | 0 <= k < j - i :: part[i..j][k] == part[i + k] == s[from + i + k] == s[from + i..from + j][k];
  }

  /** A short match that ends in the new bytes lies in the window and these. */
  lemma ShortMatchInWindow(patterns: seq<Pattern>, s: Bytes, p: Bytes)
    requires FoundWithin(patterns, s + p, WINDOW + 1) && !FoundWithin(patterns, s, WINDOW + 1)
    ensures Found(patterns, Window(s) + p)
  {
    var all := s + p;
    var k, i, j :| 0 <= k < |patterns| && 0 <= i <= j <= |all| && j - i <= WINDOW + 1 && patterns[k](all[i..j]);
    SliceOfFirst(s, p, i, j);
    assert j > |s|;
    var cut := |s| - |Window(s)|;
    assert Window(s) + p == all[cut..];
    assert all[i..j] == all[cut..][i - cut..j - cut];
    assert Matches(patterns[k], Window(s) + p);
  }

  lemma SliceOfFirst(s: Bytes, p: Bytes, i: nat, j: nat)
    requires i <= j <= |s + p|
    ensures j <= |s| ==> (s + p)[i..j] == s[i..j]
  {
    if j <= |s| {
      assert (s + p)[i..j] == s[i..j];
    }
  }

  lemma ShortIsFound(patterns: seq<Pattern>, s: Bytes, limit: nat)
    requires FoundWithin(patterns, s, limit)
    ensures Found(patterns, s)
  {
    var k, i, j :| 0 <= k < |patterns| && 0 <= i <= j <= |s| && j - i <= limit && patterns[k](s[i..j]);
    assert Matches(patterns[k], s);
  }

  /** What the detector knows of everything written to it so far. */
  ghost predicate Knows(patterns: seq<Pattern>, d: State, s: Bytes) {
    if d.found then Found(patterns, s)
    else d.tail == Window(s) && !FoundWithin(patterns, s, WINDOW + 1)
  }

  lemma AbsorbKnows(patterns: seq<Pattern>, d: State, s: Bytes, p: Bytes)
    requires Knows(patterns, d, s)
    ensures Knows(patterns, Absorb(patterns, d, p), s + p)
  {
    if d.found {
      assert (s + p)[0..|s|] == s;
      FoundInPart(patterns, s + p, 0, |s|);
    } else if Found(patterns, d.tail + p) {
      var cut := |s| - |d.tail|;
      assert (s + p)[cut..|s + p|] == d.tail + p;
      FoundInPart(patterns, s + p, cut, |s + p|);
    } else {
      if FoundWithin(patterns, s + p, WINDOW + 1) {
        ShortMatchInWindow(patterns, s, p);
      }
      assert Window(d.tail + p) == Window(s + p);
    }
  }

  lemma FirstWrite(patterns: seq<Pattern>, p: Bytes)
    ensures Knows(patterns, Absorb(patterns, State([], false), p), p)
  {
    assert [] + p == p;
    if FoundWithin(patterns, p, WINDOW + 1) {
      ShortIsFound(patterns, p, WINDOW + 1);
    }
  }

  /** However a stream is cut into writes: a match of at most 257 bytes is found,
      and nothing is found without a match. */
  lemma {:induction false} EverySplit(patterns: seq<Pattern>, pieces: seq<Bytes>)
    requires pieces != []
    ensures Knows(patterns, Scan(patterns, pieces), Flatten(pieces))
    decreases |pieces|
  {
    var front, last := pieces[..|pieces| - 1], pieces[|pieces| - 1];
    assert pieces == front + [last];
    FlattenAppend(front, last);
    if front == [] {
      assert Flatten(front) + last == last && Scan(patterns, front) == State([], false);
      FirstWrite(patterns, last);
    } else {
      EverySplit(patterns, front);
      AbsorbKnows(patterns, Scan(patterns, front), Flatten(front), last);
    }
  }

  ghost predicate Bounded(patterns: seq<Pattern>) {
    forall k, m: Bytes | 0 <= k < |patterns| && patterns[k](m) :: |m| <= WINDOW + 1
  }

  lemma BoundedMatch(patterns: seq<Pattern>, s: Bytes)
    requires Bounded(patterns)
    ensures Found(patterns, s) <==> FoundWithin(patterns, s, WINDOW + 1)
  {
    if Found(patterns, s) {
      var k :| 0 <= k < |patterns| && Matches(patterns[k], s);
      var i, j :| 0 <= i <= j <= |s| && patterns[k](s[i..j]);
      assert |s[i..j]| == j - i <= WINDOW + 1;
    }
    if FoundWithin(patterns, s, WINDOW + 1) {
      ShortIsFound(patterns, s, WINDOW + 1);
    }
  }

  /** Patterns that match at most 257 bytes are found exactly if the stream contains
      a match, so the cut does not matter. */
  lemma BoundedPatternsAreFound(patterns: seq<Pattern>, pieces: seq<Bytes>)
    requires pieces != [] && Bounded(patterns)
    ensures Scan(patterns, pieces).found <==> Found(patterns, Flatten(pieces))
  {
    EverySplit(patterns, pieces);
    BoundedMatch(patterns, Flatten(pieces));
  }

  predicate KeyCharacter(b: Byte) {
    48 <= b < 58 || 65 <= b < 91
  }

  /** An AWS access key ID: AKIA or ASIA and sixteen more digits or capitals. */
  predicate AccessKey(m: Bytes) {
    && |m| == 20 && (m[..4] == [65, 75, 73, 65] || m[..4] == [65, 83, 73, 65])
    && forall i | 4 <= i < 20 :: KeyCharacter(m[i])
  }

  /** No cut hides an access key ID, whatever other patterns there are. */
  lemma AccessKeysAreFound(others: seq<Pattern>, pieces: seq<Bytes>, before: Bytes, key: Bytes, after: Bytes)
    requires AccessKey(key) && pieces != [] && Flatten(pieces) == before + key + after
    ensures Scan([AccessKey] + others, pieces).found
  {
    var patterns := [AccessKey] + others;
    var i, j := |before|, |before| + 20;
    assert Flatten(pieces)[i..j] == key;
    assert patterns[0](Flatten(pieces)[i..j]);
    EverySplit(patterns, pieces);
  }

  // ------------------------------------------------ what some cut would hide

  /** A stream written byte by byte. */
  function Singles(s: Bytes): (pieces: seq<Bytes>)
    ensures |pieces| == |s|
  {
    seq(|s|, i requires 0 <= i < |s| => [s[i]])
  }

  lemma SinglesSnoc(s: Bytes)
    requires s != []
    ensures Singles(s) == Singles(s[..|s| - 1]) + [[s[|s| - 1]]]
  {
  }

  lemma {:induction false} FlattenSingles(s: Bytes)
    ensures Flatten(Singles(s)) == s
    decreases |s|
  {
    if s != [] {
      var front := s[..|s| - 1];
      FlattenSingles(front);
      SinglesSnoc(s);
      FlattenAppend(Singles(front), [s[|s| - 1]]);
    }
  }

  /** Byte by byte nothing longer than the window and one byte is ever looked at. */
  lemma {:induction false} SinglesFindShort(patterns: seq<Pattern>, s: Bytes)
    requires !FoundWithin(patterns, s, WINDOW + 1)
    ensures Scan(patterns, Singles(s)) == State(Window(s), false)
    decreases |s|
  {
    if s != [] {
      var front, last := s[..|s| - 1], [s[|s| - 1]];
      assert s == front + last;
      if FoundWithin(patterns, front, WINDOW + 1) {
        WithinPart(patterns, s, 0, |front|);
      }
      SinglesFindShort(patterns, front);
      SinglesSnoc(s);
      assert Singles(s)[..|s| - 1] == Singles(front) && Singles(s)[|s| - 1] == last;
      var cut := |front| - |Window(front)|;
      assert Window(front) + last == s[cut..|s|];
      if Found(patterns, s[cut..|s|]) {
        AllIsWithin(patterns, s[cut..|s|]);
        WithinPart(patterns, s, cut, |s|);
      }
      assert Window(Window(front) + last) == Window(s);
    }
  }

  lemma AllIsWithin(patterns: seq<Pattern>, s: Bytes)
    requires Found(patterns, s) && |s| <= WINDOW + 1
    ensures FoundWithin(patterns, s, WINDOW + 1)
  {
    var k :| 0 <= k < |patterns| && Matches(patterns[k], s);
    var i, j :| 0 <= i <= j <= |s| && patterns[k](s[i..j]);
  }

  lemma WithinPart(patterns: seq<Pattern>, s: Bytes, from: nat, to: nat)
    requires from <= to <= |s| && FoundWithin(patterns, s[from..to], WINDOW + 1)
    ensures FoundWithin(patterns, s, WINDOW + 1)
  {
    var k, i, j :| 0 <= k < |patterns| && 0 <= i <= j <= to - from && j - i <= WINDOW + 1
        && patterns[k](s[from..to][i..j]);
    SlicedTwice(s, from, to, i, j);
    var a, b := from + i, from + j;
    assert patterns[k](s[a..b]);
  }

  /** Every way of cutting the stream into writes finds something. */
  ghost predicate FoundInEveryCut(patterns: seq<Pattern>, s: Bytes) {
    forall pieces: seq<Bytes> | pieces != [] && Flatten(pieces) == s :: Scan(patterns, pieces).found
  }

  /** No cut hides the matches of a stream exactly if one of them has at most 257
      bytes. */
  lemma FoundWhateverTheCut(patterns: seq<Pattern>, s: Bytes)
    requires s != []
    ensures FoundInEveryCut(patterns, s) <==> FoundWithin(patterns, s, WINDOW + 1)
  {
    if FoundWithin(patterns, s, WINDOW + 1) {
      forall pieces: seq<Bytes> | pieces != [] && Flatten(pieces) == s ensures Scan(patterns, pieces).found {
        EverySplit(patterns, pieces);
      }
    } else {
      FlattenSingles(s);
      SinglesFindShort(patterns, s);
      assert !Scan(patterns, Singles(s)).found;
    }
  }

  // ----------------------------------------------------- the second pattern

  const QUOTE: Byte := 34
  const APOSTROPHE: Byte := 39

  function Ascii(text: string): Bytes
    requires forall i | 0 <= i < |text| :: text[i] as int < 128
  {
    seq(|text|, i requires 0 <= i < |text| => text[i] as int)
  }

  function Lower(b: Byte): Byte {
    if 65 <= b < 91 then b + 32 else b
  }

  function LowerAll(s: Bytes): Bytes {
    seq(|s|, i requires 0 <= i < |s| => Lower(s[i]))
  }

  /** \s: tab, newline, form feed, carriage return and space. */
  predicate Space(b: Byte) {
    b == 9 || b == 10 || b == 12 || b == 13 || b == 32
  }

  predicate OptionalQuote(s: Bytes) {
    s == [] || s == [QUOTE] || s == [APOSTROPHE]
  }

  predicate SecretName(s: Bytes) {
    var name := LowerAll(s);
    || name == Ascii("aws_secret_access_key") || name == Ascii("aws_session_token")
    || name == Ascii("x-amz-security-token")
    || name == Ascii("accesskeyid") || name == Ascii("secretaccesskey") || name == Ascii("sessiontoken")
  }

  /** A name, a sign and sixteen characters of a value. */
  datatype Assignment = Assignment(opening: Bytes, name: Bytes, closing: Bytes, before: Bytes, sign: Byte, after: Bytes,
                                   quote: Bytes, value: Bytes) {
    predicate Legal() {
      && OptionalQuote(opening) && SecretName(name) && OptionalQuote(closing) && OptionalQuote(quote)
      && (forall i | 0 <= i < |before| :: Space(before[i])) && (forall i | 0 <= i < |after| :: Space(after[i]))
      && (sign == 58 || sign == 61) && |value| == 16
      && forall i | 0 <= i < 16 :: value[i] < 128 && !Space(value[i]) && value[i] != QUOTE && value[i] != APOSTROPHE
    }

    function Text(): Bytes {
      opening + name + closing + before + [sign] + after + quote + value
    }
  }

  /** What the second pattern matches, as far as it is ASCII. */
  ghost predicate SecretAssignment(m: Bytes) {
    exists x: Assignment :: x.Legal() && x.Text() == m
  }

  predicate LetterAt(m: Bytes, k: nat) {
    k < |m| && 97 <= Lower(m[k]) <= 122
  }

  /** A sign with sixteen bytes behind it. */
  predicate SignAt(m: Bytes, k: nat) {
    k + 17 <= |m| && (m[k] == 58 || m[k] == 61)
  }

  /** The name starts with a letter, and sixteen bytes follow the sign. */
  lemma SignInside(m: Bytes)
    ensures SecretAssignment(m) ==> exists k: nat, n: nat :: k < n && LetterAt(m, k) && SignAt(m, n)
  {
    if SecretAssignment(m) {
      var x: Assignment :| x.Legal() && x.Text() == m;
      var k, n := |x.opening|, |x.opening + x.name + x.closing + x.before|;
      NameStarts(x.name);
      assert m[k] == x.name[0];
      assert LetterAt(m, k) && SignAt(m, n);
    }
  }

  lemma NameStarts(name: Bytes)
    requires SecretName(name)
    ensures name != [] && 97 <= Lower(name[0]) <= 122
  {
    assert |LowerAll(name)| > 0 && LowerAll(name)[0] == Lower(name[0]);
  }

  lemma KeyStarts(m: Bytes)
    ensures AccessKey(m) ==> m != [] && m[0] == 65
  {
    if AccessKey(m) {
      assert m[0] == m[..4][0];
    }
  }

  ghost function SourcePatterns(): seq<Pattern> {
    [AccessKey, SecretAssignment]
  }

  /** Without a letter in front of a sign and sixteen bytes behind it neither pattern
      matches, if there is no capital either. */
  lemma NothingToFind(s: Bytes)
    requires forall i | 0 <= i < |s| :: !(65 <= s[i] <= 90)
    requires forall i, j | 0 <= i < j < |s| && 97 <= s[i] <= 122 && (s[j] == 58 || s[j] == 61) :: j + 17 > |s|
    ensures !Found(SourcePatterns(), s)
  {
    forall i, j | 0 <= i <= j <= |s| ensures !AccessKey(s[i..j]) && !SecretAssignment(s[i..j]) {
      hide SecretAssignment;
      assert forall k | 0 <= k < j - i :: s[i..j][k] == s[i + k];
      KeyStarts(s[i..j]);
      SignInside(s[i..j]);
      forall k: nat, n: nat | k < n && LetterAt(s[i..j], k) ensures !SignAt(s[i..j], n) {
        assert s[i..j][k] == s[i + k];
      }
    }
    assert SourcePatterns()[0] == AccessKey && SourcePatterns()[1] == SecretAssignment;
  }

  const PADDING: nat := 300

  /** A name, many spaces, a sign and fifteen letters. */
  predicate Padded(name: Bytes, spaces: Bytes, letters: Bytes) {
    && SecretName(name) && (forall i | 0 <= i < |name| :: name[i] == 45 || name[i] == 95 || 97 <= name[i] <= 122)
    && |spaces| == PADDING && (forall i | 0 <= i < |spaces| :: spaces[i] == 32)
    && |letters| == 15 && forall i | 0 <= i < |letters| :: letters[i] == 97
  }

  function PaddedText(name: Bytes, spaces: Bytes, letters: Bytes): Bytes {
    name + spaces + [61] + letters
  }

  lemma LongMatch(name: Bytes, spaces: Bytes, letters: Bytes)
    requires Padded(name, spaces, letters)
    ensures Found(SourcePatterns(), PaddedText(name, spaces, letters) + [97])
  {
    hide SecretName;
    var x := Assignment([], name, [], spaces, 61, [], [], letters + [97]);
    var s := PaddedText(name, spaces, letters) + [97];
    assert x.Legal();
    assert x.Text() == s && s[0..|s|] == s;
    assert SecretAssignment(s[0..|s|]);
    assert SourcePatterns()[1](s[0..|s|]);
    assert Matches(SourcePatterns()[1], s);
  }

  lemma MissedAtFirst(name: Bytes, spaces: Bytes, letters: Bytes)
    requires Padded(name, spaces, letters)
    ensures !Found(SourcePatterns(), PaddedText(name, spaces, letters))
  {
    hide SecretName, Found;
    NothingToFind(PaddedText(name, spaces, letters));
  }

  lemma MissedAtLast(name: Bytes, spaces: Bytes, letters: Bytes)
    requires Padded(name, spaces, letters)
    ensures !Found(SourcePatterns(), Window(PaddedText(name, spaces, letters)) + [97])
  {
    hide SecretName, Found;
    var s := PaddedText(name, spaces, letters);
    var cut := |s| - WINDOW;
    assert forall i | |name| <= i < |s| - 16 :: s[i] == 32;
    NothingToFind(Window(s) + [97]);
  }

  /** The spaces around a sign are unbounded, so a match can be longer than the window,
      and a cut before its last byte hides it. */
  lemma LongerMatchMissed() returns (pieces: seq<Bytes>)
    ensures Found(SourcePatterns(), Flatten(pieces)) && !Scan(SourcePatterns(), pieces).found
  {
    hide Found;
    var name, spaces: Bytes, letters: Bytes := Ascii("accesskeyid"), seq(PADDING, _ => 32), seq(15, _ => 97);
    assert LowerAll(name) == name;
    assert Padded(name, spaces, letters);
    var first, patterns := PaddedText(name, spaces, letters), SourcePatterns();
    pieces := [first, [97]];
    TwoWrites(patterns, first, [97]);
    LongMatch(name, spaces, letters);
    MissedAtFirst(name, spaces, letters);
    MissedAtLast(name, spaces, letters);
  }

  lemma TwoWrites(patterns: seq<Pattern>, first: Bytes, last: Bytes)
    ensures Flatten([first, last]) == first + last
    ensures !Found(patterns, first)
            ==> Scan(patterns, [first, last]) == Absorb(patterns, State(Window(first), false), last)
  {
    hide Found;
    var pieces := [first, last];
    assert pieces[..1] == [first] && [first][..0] == [] && [] + first == first && [first] + [last] == pieces;
    FlattenAppend([], first);
    FlattenAppend([first], last);
    assert [] + [first] == [first];
    assert Scan(patterns, []) == State([], false);
    assert Scan(patterns, [first]) == Absorb(patterns, State([], false), first);
  }
}
