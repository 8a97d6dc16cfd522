/** Newline-terminated files as bufio.Reader and bufio.Scanner read them.
    A reader is represented by the bytes it has not consumed yet. */
module Lines {
  import opened ByteStrings

  const CARRIAGE_RETURN: Byte := 13

  /** The file that writing each row followed by '\n' produces. */
  function Text(rows: seq<Bytes>): Bytes {
    if rows == [] then [] else rows[0] + [NEWLINE] + Text(rows[1..])
  }

  /** Bytes up to and including the first newline, or everything without one. */
  function LineLength(rest: Bytes): (n: nat)
    ensures n <= |rest| && (rest != [] ==> n > 0)
  {
    if rest == [] then 0
    else if rest[0] == NEWLINE then 1
    else 1 + LineLength(rest[1..])
  }

  /** bufio.Reader.ReadBytes('\n'): the line read and what is left. */
  function ReadBytes(rest: Bytes): (r: (Bytes, Bytes))
    ensures r.0 + r.1 == rest && (rest != [] ==> r.0 != [])
  {
    (rest[..LineLength(rest)], rest[LineLength(rest)..])
  }

  datatype Scanned = Eof | TooLong | Token(line: Bytes, rest: Bytes)

  function Chomp(line: Bytes): Bytes {
    if line != [] && line[|line| - 1] == NEWLINE then line[..|line| - 1] else line
  }

  function DropCarriageReturn(line: Bytes): Bytes {
    if line != [] && line[|line| - 1] == CARRIAGE_RETURN then line[..|line| - 1] else line
  }

  /** bufio.Scanner.Scan with ScanLines and a buffer of at most `limit` bytes. */
  function Scan(limit: nat, rest: Bytes): (r: Scanned)
    ensures r.Token? ==> |r.rest| < |rest|
  {
    if rest == [] then Eof
    else
      var (line, left) := ReadBytes(rest);
      if |Chomp(line)| >= limit then TooLong else Token(DropCarriageReturn(Chomp(line)), left)
  }

  /** A row that survives being written and scanned: no newline inside, no
      carriage return at the end, and short enough for the scanner. */
  predicate Scannable(limit: nat, row: Bytes) {
    NEWLINE !in row && |row| < limit && (row != [] ==> row[|row| - 1] != CARRIAGE_RETURN)
  }

  lemma {:induction false} LineLengthFirst(row: Bytes, rest: Bytes)
    requires NEWLINE !in row
    ensures LineLength(row + [NEWLINE] + rest) == |row| + 1
  {
    var t := row + [NEWLINE] + rest;
    if row != [] {
      assert t[0] == row[0];
      assert t[1..] == row[1..] + [NEWLINE] + rest;
      LineLengthFirst(row[1..], rest);
    }
  }

  /** Reading the first line of a text gives its first row back. */
  lemma ReadText(rows: seq<Bytes>)
    requires rows != [] && NEWLINE !in rows[0]
    ensures ReadBytes(Text(rows)) == (rows[0] + [NEWLINE], Text(rows[1..]))
  {
    LineLengthFirst(rows[0], Text(rows[1..]));
  }

  lemma ScanText(limit: nat, rows: seq<Bytes>)
    requires rows != [] && Scannable(limit, rows[0])
    ensures Scan(limit, Text(rows)) == Token(rows[0], Text(rows[1..]))
  {
    ReadText(rows);
    var line := rows[0] + [NEWLINE];
    assert Chomp(line) == rows[0];
  }

  lemma {:induction false} TextAppend(a: seq<Bytes>, b: seq<Bytes>)
    ensures Text(a + b) == Text(a) + Text(b)
  {
    if a == [] {
      assert a + b == b;
    } else {
      assert (a + b)[1..] == a[1..] + b;
      TextAppend(a[1..], b);
    }
  }

  lemma TextOne(row: Bytes)
    ensures Text([row]) == row + [NEWLINE]
  {
    assert [row][1..] == [];
  }

  lemma {:induction false} TextInjective(a: seq<Bytes>, b: seq<Bytes>)
    requires Text(a) == Text(b)
    requires forall r | r in a :: NEWLINE !in r
    requires forall r | r in b :: NEWLINE !in r
    ensures a == b
  {
    if a != [] && b != [] {
      ReadText(a);
      ReadText(b);
      assert a[0] == (a[0] + [NEWLINE])[..|a[0]|];
      assert b[0] == (b[0] + [NEWLINE])[..|b[0]|];
      TextInjective(a[1..], b[1..]);
      assert a == [a[0]] + a[1..] && b == [b[0]] + b[1..];
    }
  }
}
