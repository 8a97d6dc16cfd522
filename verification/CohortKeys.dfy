/** Which items belong to a cohort, and their rank (cohortKeyValues in
    internal/services/dynamodb/item.go, Rank in cohort.go). */
module CohortKeys {
  import opened ByteStrings
  import opened AttributeCodec
  import opened GovernedState
  import opened ItemGovernance
  import opened Wrappers

  /** The value of a predicate, as the policy file has it; a number is known by the
      way it prints. */
  datatype Expected = Text(text: Bytes) | Flag(flag: bool) | Number(printed: Bytes) {
    /** fmt.Sprint. */
    function Print(): Bytes {
      match this
      case Text(text) => text
      case Flag(flag) => if flag then TRUE else FALSE
      case Number(printed) => printed
    }
  }

  datatype Predicate = Predicate(attribute: Bytes, value: Expected)

  datatype Cohort = Cohort(predicates: seq<Predicate>, keyPaths: seq<Bytes>)

  predicate ScalarMatches(v: Attr, e: Expected) {
    match v
    case S(x) => e == Text(x)
    case N(x) => x == e.Print()
    case BOOL(x) => e == Flag(x)
    case NULL(x) => e == Flag(x)
    case _ => false
  }

  /** Which attributes meet an expected value: a text is met by a string, a flag by a
      boolean or a null with that flag, and whatever is expected by the number that
      prints like it. */
  lemma MeetsExactly(v: Attr, e: Expected)
    ensures ScalarMatches(v, e) <==>
            match e
            case Text(text) => v == S(text) || v == N(text)
            case Flag(flag) => v == BOOL(flag) || v == NULL(flag) || v == N(if flag then TRUE else FALSE)
            case Number(printed) => v == N(printed)
  {
  }

  predicate Meets(item: Item, p: Predicate) {
    var v := AtPath(item, SplitDots(p.attribute));
    v.Some? && ScalarMatches(v.value, p.value)
  }

  /** The canonical text of the attribute at a path; None if it has none. */
  function KeyText(d: Documents, v: Attr): Option<Bytes> {
    var j := Encode(d.go, v);
    if j.Some? then Some(d.text(j.value)) else None
  }

  function KeyAt(item: Item, path: Bytes): Option<Attr> {
    AtPath(item, SplitDots(path))
  }

  predicate HasKeys(item: Item, paths: seq<Bytes>) {
    forall i | 0 <= i < |paths| :: KeyAt(item, paths[i]).Some?
  }

  /** The first `n` keys are there and have a text. */
  predicate Encodable(d: Documents, item: Item, paths: seq<Bytes>, n: nat)
    requires n <= |paths|
  {
    forall i | 0 <= i < n :: KeyAt(item, paths[i]).Some? && KeyText(d, KeyAt(item, paths[i]).value).Some?
  }

  predicate TextsAre(d: Documents, item: Item, paths: seq<Bytes>, values: seq<Bytes>) {
    && |values| == |paths|
    && forall i | 0 <= i < |paths| ::
       KeyAt(item, paths[i]).Some? && KeyText(d, KeyAt(item, paths[i]).value) == Some(values[i])
  }

  /** The first key that keeps the item out of the cohort is missing, or fails. */
  predicate StopsAt(d: Documents, item: Item, paths: seq<Bytes>, i: nat, failed: bool)
    requires i < |paths|
  {
    && Encodable(d, item, paths, i)
    && if failed then KeyAt(item, paths[i]).Some? && KeyText(d, KeyAt(item, paths[i]).value).None?
       else KeyAt(item, paths[i]).None?
  }

  /** None is an error, Some(None) an item outside the cohort. */
  predicate Judged(d: Documents, item: Item, c: Cohort, r: Option<Option<seq<Bytes>>>) {
    var meets := forall i | 0 <= i < |c.predicates| :: Meets(item, c.predicates[i]);
    match r
    case None => meets && exists i | 0 <= i < |c.keyPaths| :: StopsAt(d, item, c.keyPaths, i, true)
    case Some(None) => !meets || exists i | 0 <= i < |c.keyPaths| :: StopsAt(d, item, c.keyPaths, i, false)
    case Some(Some(values)) => meets && TextsAre(d, item, c.keyPaths, values)
  }

  method CohortKeyValues(d: Documents, item: Item, c: Cohort) returns (r: Option<Option<seq<Bytes>>>)
    ensures Judged(d, item, c, r)
  {
    hide AtPath, SplitDots, Encode, ScalarMatches;
    for i := 0 to |c.predicates|
      invariant forall k | 0 <= k < i :: Meets(item, c.predicates[k])
    {
      if !Meets(item, c.predicates[i]) {
        return Some(None);
      }
    }
    var values := [];
    for i := 0 to |c.keyPaths|
      invariant TextsAre(d, item, c.keyPaths[..i], values)
    {
      var value := KeyAt(item, c.keyPaths[i]);
      if value.None? {
        assert StopsAt(d, item, c.keyPaths, i, false);
        return Some(None);
      }
      var text := KeyText(d, value.value);
      if text.None? {
        assert StopsAt(d, item, c.keyPaths, i, true);
        return None;
      }
      values := values + [text.value];
    }
    assert c.keyPaths[..|c.keyPaths|] == c.keyPaths;
    r := Some(Some(values));
  }

  /** There is one verdict on an item. */
  lemma OneVerdict(d: Documents, item: Item, c: Cohort, a: Option<Option<seq<Bytes>>>, b: Option<Option<seq<Bytes>>>)
    requires Judged(d, item, c, a) && Judged(d, item, c, b)
    ensures a == b
  {
    hide AtPath, SplitDots, Encode, ScalarMatches, Meets;
    if a.Some? && a.value.Some? && b.Some? && b.value.Some? {
      assert a.value.value == b.value.value;
    }
  }

  // ---------------------------------------------------------------------- ranks

  /** Each value behind its length in eight bytes. */
  function Framed(values: seq<Bytes>): Bytes {
    if values == [] then [] else PutUint(8, |values[0]|) + values[0] + Framed(values[1..])
  }

  /** Rank: HMAC-SHA256 over the framed values. */
  method Rank(mac: Bytes -> Bytes, keyValues: seq<Bytes>) returns (rank: Bytes)
    ensures rank == mac(Framed(keyValues))
  {
    hide Framed, PutUint;
    var written := [];
    assert keyValues[0..] == keyValues && [] + Framed(keyValues) == Framed(keyValues);
    for i := 0 to |keyValues|
      invariant written + Framed(keyValues[i..]) == Framed(keyValues)
    {
      FrameNext(keyValues, i, written);
      written := written + PutUint(8, |keyValues[i]|) + keyValues[i];
    }
    NothingFramed(keyValues[|keyValues|..], written);
    rank := mac(written);
  }

  lemma FrameNext(values: seq<Bytes>, i: nat, written: Bytes)
    requires i < |values|
    ensures written + Framed(values[i..])
            == written + PutUint(8, |values[i]|) + values[i] + Framed(values[i + 1..])
  {
    assert values[i..][1..] == values[i + 1..];
    var length, rest := PutUint(8, |values[i]|), Framed(values[i + 1..]);
    assert Framed(values[i..]) == length + values[i] + rest;
    assert written + (length + values[i] + rest) == written + length + values[i] + rest;
  }

  lemma NothingFramed(values: seq<Bytes>, written: Bytes)
    requires values == []
    ensures written + Framed(values) == written
  {
  }

  predicate Measurable(values: seq<Bytes>) {
    forall i | 0 <= i < |values| :: |values[i]| < Power256(8)
  }

  /** The lengths tell the values apart, whatever they contain. */
  lemma {:induction false} FramedInjective(a: seq<Bytes>, b: seq<Bytes>)
    requires Measurable(a) && Measurable(b) && Framed(a) == Framed(b)
    ensures a == b
    decreases |a|
  {
    assert (a == [] <==> |Framed(a)| == 0) && (b == [] <==> |Framed(b)| == 0);
    if a != [] && b != [] {
      FrameInjective(a[0], Framed(a[1..]), b[0], Framed(b[1..]));
      assert Measurable(a[1..]) && Measurable(b[1..]);
      FramedInjective(a[1..], b[1..]);
      assert a == [a[0]] + a[1..] && b == [b[0]] + b[1..];
    }
  }

  lemma FrameInjective(a: Bytes, x: Bytes, b: Bytes, y: Bytes)
    requires |a| < Power256(8) && |b| < Power256(8)
    requires PutUint(8, |a|) + a + x == PutUint(8, |b|) + b + y
    ensures a == b && x == y
  {
    hide Power256;
    var m, n := PutUint(8, |a|), PutUint(8, |b|);
    var all := m + a + x;
    assert all[..8] == m && all[..8] == n;
    PutUintRoundTrip(8, |a|);
    PutUintRoundTrip(8, |b|);
    assert all[8..] == a + x && all[8..] == b + y;
    assert a == (a + x)[..|a|] && b == (b + y)[..|b|] && x == (a + x)[|a|..] && y == (b + y)[|b|..];
  }

  /** The keys of two items differ at most in the order of their sets. */
  ghost predicate SameKeys(d: Documents, x: Item, y: Item, paths: seq<Bytes>)
    requires HasKeys(x, paths) && HasKeys(y, paths)
  {
    forall i | 0 <= i < |paths| ::
      Canonical(d.go, KeyAt(x, paths[i]).value) == Canonical(d.go, KeyAt(y, paths[i]).value)
  }

  /** Two members of a cohort have the same rank exactly if their key attributes are
      the same up to the order of sets. */
  lemma RankTellsKeys(d: Documents, c: Cohort, mac: Bytes -> Bytes, x: Item, y: Item, v: seq<Bytes>, w: seq<Bytes>)
    requires Readable(d) && (forall a, b :: mac(a) == mac(b) ==> a == b)
    requires Judged(d, x, c, Some(Some(v))) && Judged(d, y, c, Some(Some(w))) && Measurable(v) && Measurable(w)
    ensures mac(Framed(v)) == mac(Framed(w)) <==> SameKeys(d, x, y, c.keyPaths)
  {
    hide AtPath, SplitDots, Encode, ScalarMatches, Canonical, PutUint;
    if mac(Framed(v)) == mac(Framed(w)) {
      FramedInjective(v, w);
    }
    forall i | 0 <= i < |c.keyPaths|
      ensures v[i] == w[i]
              <==> Canonical(d.go, KeyAt(x, c.keyPaths[i]).value) == Canonical(d.go, KeyAt(y, c.keyPaths[i]).value)
    {
      SameText(d, KeyAt(x, c.keyPaths[i]).value, KeyAt(y, c.keyPaths[i]).value);
    }
    if SameKeys(d, x, y, c.keyPaths) {
      assert v == w;
    }
  }

  lemma SameText(d: Documents, a: Attr, b: Attr)
    requires Readable(d) && KeyText(d, a).Some? && KeyText(d, b).Some?
    ensures KeyText(d, a) == KeyText(d, b) <==> Canonical(d.go, a) == Canonical(d.go, b)
  {
    hide Canonical, Encode;
    EncodesExactly(d.go, a);
    EncodesExactly(d.go, b);
    SameDocument(d.go, a, b);
    assert d.parse(d.text(Encode(d.go, a).value)) == Some(Encode(d.go, a).value);
    assert d.parse(d.text(Encode(d.go, b).value)) == Some(Encode(d.go, b).value);
  }
}
