/** Go byte slices and strings, with the order of bytes.Compare. */
module ByteStrings {
  type Byte = n: int | 0 <= n < 256

  type Bytes = seq<Byte>

  const NUL: Byte := 0
  const NEWLINE: Byte := 10

  /** bytes.Compare(a, b) <= 0: lexicographic on unsigned bytes, a prefix first. */
  predicate Le(a: Bytes, b: Bytes) {
    if a == [] then true
    else if b == [] then false
    else if a[0] != b[0] then a[0] < b[0]
    else Le(a[1..], b[1..])
  }

  /** The first byte that differs decides; a prefix comes first. */
  lemma {:induction false} LeByFirstDifference(a: Bytes, b: Bytes)
    ensures Le(a, b) <==> a <= b || exists i | 0 <= i < |a| && i < |b| :: a[..i] == b[..i] && a[i] < b[i]
  {
    if a != [] && b != [] {
      if a[0] == b[0] {
        LeByFirstDifference(a[1..], b[1..]);
        assert a <= b <==> a[1..] <= b[1..];
        forall i | 0 <= i < |a[1..]| && i < |b[1..]|
          ensures a[1..][..i] == b[1..][..i] <==> a[..i + 1] == b[..i + 1]
        {
          assert a[..i + 1] == [a[0]] + a[1..][..i] && b[..i + 1] == [b[0]] + b[1..][..i];
        }
        if exists i | 0 <= i < |a[1..]| && i < |b[1..]| :: a[1..][..i] == b[1..][..i] && a[1..][i] < b[1..][i] {
          var i :| 0 <= i < |a[1..]| && i < |b[1..]| && a[1..][..i] == b[1..][..i] && a[1..][i] < b[1..][i];
          assert a[..i + 1] == b[..i + 1] && a[i + 1] < b[i + 1];
        }
        if exists i | 0 <= i < |a| && i < |b| :: a[..i] == b[..i] && a[i] < b[i] {
          var i :| 0 <= i < |a| && i < |b| && a[..i] == b[..i] && a[i] < b[i];
          assert a[1..][..i - 1] == b[1..][..i - 1] && a[1..][i - 1] < b[1..][i - 1];
        }
      } else {
        assert a[..0] == b[..0];
        assert !(a <= b);
      }
    }
  }

  lemma {:induction false} LeTotal(a: Bytes, b: Bytes)
    ensures Le(a, b) || Le(b, a)
  {
    if a != [] && b != [] && a[0] == b[0] {
      LeTotal(a[1..], b[1..]);
    }
  }

  lemma {:induction false} LeAntisymmetric(a: Bytes, b: Bytes)
    requires Le(a, b) && Le(b, a)
    ensures a == b
  {
    if a != [] {
      LeAntisymmetric(a[1..], b[1..]);
      assert a == [a[0]] + a[1..] == [b[0]] + b[1..] == b;
    }
  }

  lemma {:induction false} LeTransitive(a: Bytes, b: Bytes, c: Bytes)
    requires Le(a, b) && Le(b, c)
    ensures Le(a, c)
  {
    if a != [] && a[0] == b[0] == c[0] {
      LeTransitive(a[1..], b[1..], c[1..]);
    }
  }

  /** A prefix sorts first, and everything sorted between a prefix and one of
      its extensions is itself an extension of that prefix. */
  lemma {:induction false} PrefixIsInterval(p: Bytes, x: Bytes, s: Bytes)
    requires p <= s && Le(p, x) && Le(x, s)
    ensures p <= x
  {
    if p != [] {
      PrefixIsInterval(p[1..], x[1..], s[1..]);
      assert p == [p[0]] + p[1..];
      assert x == [x[0]] + x[1..];
    }
  }

  lemma {:induction false} PrefixSortsFirst(p: Bytes, s: Bytes)
    requires p <= s
    ensures Le(p, s)
  {
    if p != [] {
      PrefixSortsFirst(p[1..], s[1..]);
    }
  }

  /** Big-endian layout of an unsigned integer in `width` bytes (encoding/binary). */
  function BigEndian(width: nat, value: nat): (r: Bytes)
    ensures |r| == width
  {
    if width == 0 then [] else BigEndian(width - 1, value / 256) + [value % 256]
  }

  function FromBigEndian(b: Bytes): nat {
    if b == [] then 0 else 256 * FromBigEndian(b[..|b| - 1]) + b[|b| - 1]
  }

  function Power256(width: nat): nat {
    if width == 0 then 1 else 256 * Power256(width - 1)
  }

  lemma {:induction false} BigEndianRoundTrip(width: nat, value: nat)
    requires value < Power256(width)
    ensures FromBigEndian(BigEndian(width, value)) == value
  {
    if width != 0 {
      BigEndianRoundTrip(width - 1, value / 256);
      var b := BigEndian(width, value);
      assert b[..|b| - 1] == BigEndian(width - 1, value / 256);
    }
  }

  lemma {:induction false} BigEndianOnto(b: Bytes)
    ensures FromBigEndian(b) < Power256(|b|)
    ensures BigEndian(|b|, FromBigEndian(b)) == b
  {
    if b != [] {
      BigEndianOnto(b[..|b| - 1]);
    }
  }

  /** binary.BigEndian.PutUintN: the conversion to N bits wraps around. */
  function PutUint(width: nat, value: nat): (r: Bytes)
    ensures |r| == width
  {
    Power256Positive(width);
    BigEndian(width, value % Power256(width))
  }

  lemma {:induction false} Power256Positive(width: nat)
    ensures Power256(width) > 0
  {
    if width > 0 {
      Power256Positive(width - 1);
    }
  }

  lemma SmallMod(x: nat, m: nat)
    requires x < m
    ensures x % m == x
  {
  }

  lemma PutUintRoundTrip(width: nat, value: nat)
    requires value < Power256(width)
    ensures FromBigEndian(PutUint(width, value)) == value
  {
    SmallMod(value, Power256(width));
    BigEndianRoundTrip(width, value);
  }

  /** The most significant byte comes first. */
  lemma FourBytes(n: nat)
    requires n < 0x1_0000_0000
    ensures PutUint(4, n) == [n / 0x100_0000, n / 0x1_0000 % 0x100, n / 0x100 % 0x100, n % 0x100]
  {
    assert Power256(1) == 256 && Power256(2) == 0x1_0000 && Power256(3) == 0x100_0000 && Power256(4) == 0x1_0000_0000;
    SmallMod(n, Power256(4));
    assert BigEndian(0, n / 256 / 256 / 256 / 256) == [];
    assert BigEndian(1, n / 256 / 256 / 256) == [n / 256 / 256 / 256 % 256];
    assert BigEndian(2, n / 256 / 256) == [n / 256 / 256 / 256 % 256, n / 256 / 256 % 256];
    assert BigEndian(3, n / 256) == [n / 256 / 256 / 256 % 256, n / 256 / 256 % 256, n / 256 % 256];
  }

  lemma PutUintOnto(b: Bytes)
    ensures PutUint(|b|, FromBigEndian(b)) == b
  {
    BigEndianOnto(b);
    SmallMod(FromBigEndian(b), Power256(|b|));
  }

  /** A separator that does not occur before it tells the parts apart. */
  lemma SplitAtFirst(separator: Byte, a: Bytes, b: Bytes, c: Bytes, d: Bytes)
    requires a + [separator] + b == c + [separator] + d && separator !in a && separator !in c
    ensures a == c && b == d
  {
    var s := a + [separator] + b;
    assert s[|a|] == separator && s[|c|] == separator;
    assert forall i | 0 <= i < |a| :: s[i] == a[i];
    assert forall i | 0 <= i < |c| :: s[i] == c[i];
    assert a == s[..|a|] && c == s[..|c|] && b == s[|a| + 1..] && d == s[|c| + 1..];
  }

  /** So does one that does not occur after it. */
  lemma SplitAtLast(separator: Byte, a: Bytes, b: Bytes, c: Bytes, d: Bytes)
    requires a + [separator] + b == c + [separator] + d && separator !in b && separator !in d
    ensures a == c && b == d
  {
    var s := a + [separator] + b;
    assert s[|a|] == separator && s[|c|] == separator;
    assert forall i | |a| < i < |s| :: s[i] == b[i - |a| - 1];
    assert forall i | |c| < i < |s| :: s[i] == d[i - |c| - 1];
    assert a == s[..|a|] && c == s[..|c|] && b == s[|a| + 1..] && d == s[|c| + 1..];
  }

  /** strconv.Itoa for natural numbers. */
  function Itoa(n: nat): (digits: Bytes)
    ensures digits != [] && forall d | d in digits :: 48 <= d < 58
    ensures n < 10 <==> |digits| == 1
  {
    if n < 10 then [48 + n] else Itoa(n / 10) + [48 + n % 10]
  }

  lemma {:induction false} ItoaInjective(a: nat, b: nat)
    requires Itoa(a) == Itoa(b)
    ensures a == b
  {
    var s, t := Itoa(a), Itoa(b);
    assert s[|s| - 1] == 48 + a % 10 && t[|t| - 1] == 48 + b % 10;
    if a >= 10 {
      assert Itoa(a / 10) == s[..|s| - 1] && Itoa(b / 10) == t[..|t| - 1];
      ItoaInjective(a / 10, b / 10);
    }
  }

  /** strings.Join with a NUL between the fields. */
  function JoinNul(fields: seq<Bytes>): Bytes {
    if fields == [] then []
    else if |fields| == 1 then fields[0]
    else fields[0] + [NUL] + JoinNul(fields[1..])
  }

  predicate NoNul(fields: seq<Bytes>) {
    forall i | 0 <= i < |fields| :: NUL !in fields[i]
  }

  /** Fields without NUL can be told apart again, however many there are. */
  lemma {:induction false} JoinInjective(a: seq<Bytes>, b: seq<Bytes>)
    requires a != [] && b != [] && NoNul(a) && NoNul(b) && JoinNul(a) == JoinNul(b)
    ensures a == b
    decreases |a|
  {
    if |a| > 1 && |b| > 1 {
      SplitAtFirst(NUL, a[0], JoinNul(a[1..]), b[0], JoinNul(b[1..]));
      JoinInjective(a[1..], b[1..]);
      assert a == [a[0]] + a[1..] && b == [b[0]] + b[1..];
    } else {
      HasNul(a);
      HasNul(b);
      assert |a| == |b| == 1;
    }
  }

  lemma HasNul(fields: seq<Bytes>)
    requires fields != [] && NoNul(fields)
    ensures NUL in JoinNul(fields) <==> |fields| > 1
  {
    if |fields| > 1 {
      assert JoinNul(fields)[|fields[0]|] == NUL;
    }
  }
}
