/** DynamoDB JSON: internal/services/dynamodb/item.go (attribute, attributeMap)
    and data.go (decodeKey, decodeAttribute), with JSON documents as trees. */
module AttributeCodec {
  import opened ByteStrings
  import opened Sorting
  import opened Wrappers

  type Name = Bytes

  /** types.AttributeValue; Unknown stands for any other implementation. */
  datatype Attr =
    | S(text: Bytes)
    | N(number: Bytes)
    | B(binary: Bytes)
    | BOOL(flag: bool)
    | NULL(isNull: bool)
    | SS(texts: seq<Bytes>)
    | NS(numbers: seq<Bytes>)
    | BS(binaries: seq<Bytes>)
    | L(items: seq<Attr>)
    | M(members: map<Name, Attr>)
    | Unknown

  type Item = map<Name, Attr>

  datatype Json =
    | JString(s: Bytes)
    | JBool(b: bool)
    | JArray(elements: seq<Json>)
    | JObject(fields: map<Bytes, Json>)
    | JNull
    | JNumber

  /** base64.StdEncoding, and the order in which Go ranges over a map's keys. */
  datatype Go = Go(encode64: Bytes -> Bytes, decode64: Bytes -> Option<Bytes>, order: set<Bytes> -> seq<Bytes>)

  ghost predicate Lawful(go: Go) {
    && (forall b :: go.decode64(go.encode64(b)) == Some(b))
    && (forall keys :: |go.order(keys)| == |keys| && forall k :: k in go.order(keys) <==> k in keys)
  }

  /** The type tags of DynamoDB JSON. */
  datatype Tag = TS | TN | TB | TBOOL | TNULL | TSS | TNS | TBS | TL | TM {
    function Text(): Bytes {
      match this
      case TS => [83]
      case TN => [78]
      case TB => [66]
      case TBOOL => [66, 79, 79, 76]
      case TNULL => [78, 85, 76, 76]
      case TSS => [83, 83]
      case TNS => [78, 83]
      case TBS => [66, 83]
      case TL => [76]
      case TM => [77]
    }
  }

  function TagOf(text: Bytes): (r: Option<Tag>)
    ensures r.Some? ==> r.value.Text() == text
  {
    if text == [83] then Some(TS)
    else if text == [78] then Some(TN)
    else if text == [66] then Some(TB)
    else if text == [66, 79, 79, 76] then Some(TBOOL)
    else if text == [78, 85, 76, 76] then Some(TNULL)
    else if text == [83, 83] then Some(TSS)
    else if text == [78, 83] then Some(TNS)
    else if text == [66, 83] then Some(TBS)
    else if text == [76] then Some(TL)
    else if text == [77] then Some(TM)
    else None
  }

  lemma TagRoundTrip(tag: Tag)
    ensures TagOf(tag.Text()) == Some(tag)
  {
  }

  /** The single-member object that carries a tagged value. */
  function Tagged(tag: Tag, j: Json): Json {
    JObject(map[tag.Text() := j])
  }

  function Strings(s: seq<Bytes>): (r: seq<Json>)
    ensures |r| == |s|
  {
    seq(|s|, i requires 0 <= i < |s| => JString(s[i]))
  }

  function Texts(go: Go, s: seq<Bytes>): (r: seq<Bytes>)
    ensures |r| == |s|
  {
    seq(|s|, i requires 0 <= i < |s| => go.encode64(s[i]))
  }

  // ---------------------------------------------------------------- encoding

  /** attribute: a single-member object whose name is the type tag. */
  function Encode(go: Go, v: Attr): Option<Json>
    decreases v, 1
  {
    match v
    case S(x) => Some(Tagged(TS, JString(x)))
    case N(x) => Some(Tagged(TN, JString(x)))
    case B(x) => Some(Tagged(TB, JString(go.encode64(x))))
    case BOOL(x) => Some(Tagged(TBOOL, JBool(x)))
    case NULL(x) => Some(Tagged(TNULL, JBool(x)))
    case SS(x) => Some(Tagged(TSS, JArray(Strings(Sort(Le, x)))))
    case NS(x) => Some(Tagged(TNS, JArray(Strings(Sort(Le, x)))))
    case BS(x) => Some(Tagged(TBS, JArray(Strings(Sort(Le, Texts(go, x))))))
    case L(x) =>
      var a := EncodeList(go, x);
      if a.Some? then Some(Tagged(TL, JArray(a.value))) else None
    case M(x) =>
      if forall k | k in x :: Encode(go, x[k]).Some?
      then Some(Tagged(TM, JObject(map k | k in x && Encode(go, x[k]).Some? :: Encode(go, x[k]).value)))
      else None
    case Unknown => None
  }

  function EncodeList(go: Go, x: seq<Attr>): Option<seq<Json>>
    decreases x, 0
  {
    if x == [] then Some([])
    else
      var first, others := Encode(go, x[0]), EncodeList(go, x[1..]);
      if first.Some? && others.Some? then Some([first.value] + others.value) else None
  }

  /** CanonicalItem, before it is written out as text. */
  function EncodeItem(go: Go, item: Item): Option<Json> {
    if forall k | k in item :: Encode(go, item[k]).Some?
    then Some(JObject(map k | k in item && Encode(go, item[k]).Some? :: Encode(go, item[k]).value))
    else None
  }

  /** The strings in byte order. */
  ghost predicate InOrder(a: seq<Json>, texts: seq<Bytes>) {
    exists sorted :: SortOf(Le, sorted, texts) && a == Strings(sorted)
  }

  /** The value under its tag in DynamoDB JSON: "S", "N", "B", "BOOL", "NULL", "SS", "NS",
      "BS", "L" and "M"; sets are sorted, binaries are base64. */
  ghost predicate WireForm(go: Go, v: Attr, j: Json) {
    match v
    case S(x) => j == JObject(map[[83] := JString(x)])
    case N(x) => j == JObject(map[[78] := JString(x)])
    case B(x) => j == JObject(map[[66] := JString(go.encode64(x))])
    case BOOL(x) => j == JObject(map[[66, 79, 79, 76] := JBool(x)])
    case NULL(x) => j == JObject(map[[78, 85, 76, 76] := JBool(x)])
    case SS(x) => exists a :: InOrder(a, x) && j == JObject(map[[83, 83] := JArray(a)])
    case NS(x) => exists a :: InOrder(a, x) && j == JObject(map[[78, 83] := JArray(a)])
    case BS(x) => exists a :: InOrder(a, Texts(go, x)) && j == JObject(map[[66, 83] := JArray(a)])
    case L(x) => exists a :: ListForm(go, x, a) && j == JObject(map[[76] := JArray(a)])
    case M(x) => exists f :: MapForm(go, x, f) && j == JObject(map[[77] := JObject(f)])
    case Unknown => false
  }

  ghost predicate ListForm(go: Go, x: seq<Attr>, a: seq<Json>) {
    |a| == |x| && forall i | 0 <= i < |x| :: Encode(go, x[i]) == Some(a[i])
  }

  ghost predicate MapForm(go: Go, x: Item, f: map<Bytes, Json>) {
    f.Keys == x.Keys && forall k | k in x :: Encode(go, x[k]) == Some(f[k])
  }

  lemma {:induction false} ListElements(go: Go, x: seq<Attr>)
    requires EncodeList(go, x).Some?
    ensures ListForm(go, x, EncodeList(go, x).value)
    decreases |x|
  {
    if x != [] {
      ListElements(go, x[1..]);
    }
  }

  lemma WrittenInOrder(texts: seq<Bytes>)
    ensures InOrder(Strings(Sort(Le, texts)), texts)
  {
    ByteOrder();
    SortSorts(Le, texts);
  }

  lemma SetEncodesAs(go: Go, v: Attr)
    requires v.SS? || v.NS? || v.BS?
    ensures Encode(go, v).Some? && WireForm(go, v, Encode(go, v).value)
  {
    var texts := match v case SS(x) => x case NS(x) => x case BS(x) => Texts(go, x) case _ => [];
    WrittenInOrder(texts);
    hide InOrder, Strings, Texts, Sort;
  }

  lemma ListEncodesAs(go: Go, v: Attr)
    requires v.L? && Encode(go, v).Some?
    ensures WireForm(go, v, Encode(go, v).value)
  {
    ListElements(go, v.items);
    hide ListForm, EncodeList;
  }

  lemma MapEncodesAs(go: Go, v: Attr)
    requires v.M? && Encode(go, v).Some?
    ensures WireForm(go, v, Encode(go, v).value)
  {
    var x := v.members;
    var f := map k | k in x && Encode(go, x[k]).Some? :: Encode(go, x[k]).value;
    assert MapForm(go, x, f);
    hide MapForm;
  }

  /** What a value looks like in a row, a cursor or a checkpoint. */
  lemma EncodesAs(go: Go, v: Attr)
    requires Encode(go, v).Some?
    ensures WireForm(go, v, Encode(go, v).value)
  {
    match v
    case SS(_) => SetEncodesAs(go, v);
    case NS(_) => SetEncodesAs(go, v);
    case BS(_) => SetEncodesAs(go, v);
    case L(_) => ListEncodesAs(go, v);
    case M(_) => MapEncodesAs(go, v);
    case _ =>
  }

  // ---------------------------------------------------------------- decoding

  /** json.Unmarshal into a string, a bool or a slice: a mismatch is ignored and
      leaves the zero value, as the decoder does. */
  function AsString(j: Json): Bytes { if j.JString? then j.s else [] }

  function AsBool(j: Json): bool { j.JBool? && j.b }

  function AsStrings(j: Json): seq<Bytes> {
    if j.JArray? then seq(|j.elements|, i requires 0 <= i < |j.elements| => AsString(j.elements[i])) else []
  }

  /** The first type tag in the order in which the members come up. */
  function FirstTag(keys: seq<Bytes>): (r: Option<Tag>)
    ensures r.Some? ==> r.value.Text() in keys
  {
    if keys == [] then None else if TagOf(keys[0]).Some? then TagOf(keys[0]) else FirstTag(keys[1..])
  }

  function DecodeTexts(go: Go, texts: seq<Bytes>): Option<seq<Bytes>> {
    if texts == [] then Some([])
    else
      var first, others := go.decode64(texts[0]), DecodeTexts(go, texts[1..]);
      if first.Some? && others.Some? then Some([first.value] + others.value) else None
  }

  /** decodeAttribute. */
  function Decode(go: Go, j: Json): Option<Attr>
    decreases j, 1
  {
    if !j.JObject? then None
    else
      var tag := FirstTag(go.order(j.fields.Keys));
      if tag.Some? && tag.value.Text() in j.fields then DecodeTagged(go, tag.value, j.fields[tag.value.Text()])
      else None
  }

  function DecodeTagged(go: Go, tag: Tag, j: Json): Option<Attr>
    decreases j, 2
  {
    match tag
    case TS => Some(S(AsString(j)))
    case TN => Some(N(AsString(j)))
    case TB =>
      var b := go.decode64(AsString(j));
      if b.Some? then Some(B(b.value)) else None
    case TBOOL => Some(BOOL(AsBool(j)))
    case TNULL => Some(NULL(AsBool(j)))
    case TSS => Some(SS(AsStrings(j)))
    case TNS => Some(NS(AsStrings(j)))
    case TBS =>
      var b := DecodeTexts(go, AsStrings(j));
      if b.Some? then Some(BS(b.value)) else None
    case TL =>
      var a := if j.JArray? then DecodeList(go, j.elements) else Some([]);
      if a.Some? then Some(L(a.value)) else None
    case TM =>
      if !j.JObject? then Some(M(map[]))
      else if forall k | k in j.fields :: Decode(go, j.fields[k]).Some?
      then Some(M(map k | k in j.fields && Decode(go, j.fields[k]).Some? :: Decode(go, j.fields[k]).value))
      else None
  }

  function DecodeList(go: Go, x: seq<Json>): Option<seq<Attr>>
    decreases x, 0
  {
    if x == [] then Some([])
    else
      var first, others := Decode(go, x[0]), DecodeList(go, x[1..]);
      if first.Some? && others.Some? then Some([first.value] + others.value) else None
  }

  /** decodeKey: like any Go map, the key also unmarshals from null. */
  function DecodeItem(go: Go, j: Json): Option<Item> {
    if j.JNull? then Some(map[])
    else if j.JObject? && forall k | k in j.fields :: Decode(go, j.fields[k]).Some?
    then Some(map k | k in j.fields && Decode(go, j.fields[k]).Some? :: Decode(go, j.fields[k]).value)
    else None
  }

  // ------------------------------------------------------- canonical values

  /** The value with every set in the order the encoder writes it: strings and
      numbers by bytes, binaries by their base64 text. */
  ghost function Canonical(go: Go, v: Attr): Attr
    decreases v, 1
  {
    match v
    case SS(x) => SS(Sort(Le, x))
    case NS(x) => NS(Sort(Le, x))
    case BS(x) => BS(Binaries(go, Sort(Le, Texts(go, x))))
    case L(x) => L(CanonicalList(go, x))
    case M(x) => M(map k | k in x :: Canonical(go, x[k]))
    case _ => v
  }

  ghost function CanonicalList(go: Go, x: seq<Attr>): (r: seq<Attr>)
    ensures |r| == |x|
    decreases x, 0
  {
    if x == [] then [] else [Canonical(go, x[0])] + CanonicalList(go, x[1..])
  }

  ghost function CanonicalItem(go: Go, item: Item): Item {
    map k | k in item :: Canonical(go, item[k])
  }

  ghost function Binaries(go: Go, texts: seq<Bytes>): (r: seq<Bytes>)
    ensures |r| == |texts|
  {
    if texts == [] then []
    else
      [match go.decode64(texts[0]) case Some(b) => b case None => []] + Binaries(go, texts[1..])
  }

  /** No unsupported value anywhere inside. */
  ghost predicate Supported(v: Attr)
    decreases v
  {
    match v
    case L(x) => forall e | e in x :: Supported(e)
    case M(x) => forall k | k in x :: Supported(x[k])
    case Unknown => false
    case _ => true
  }

  /** Only an unsupported value somewhere inside makes encoding fail. */
  lemma {:induction false} EncodesExactly(go: Go, v: Attr)
    ensures Encode(go, v).Some? <==> Supported(v)
    decreases v, 1
  {
    match v
    case L(x) => EncodesListExactly(go, x);
    case M(x) => forall k | k in x ensures Encode(go, x[k]).Some? <==> Supported(x[k]) { EncodesExactly(go, x[k]); }
    case _ =>
  }

  lemma {:induction false} EncodesListExactly(go: Go, x: seq<Attr>)
    ensures EncodeList(go, x).Some? <==> forall e | e in x :: Supported(e)
    decreases x, 0
  {
    if x != [] {
      EncodesExactly(go, x[0]);
      EncodesListExactly(go, x[1..]);
      assert forall e :: e in x <==> e == x[0] || e in x[1..];
    }
  }

  lemma SortTwice(x: seq<Bytes>)
    ensures Sort(Le, Sort(Le, x)) == Sort(Le, x)
  {
    ByteOrder();
    SortSorts(Le, x);
    SortPermutation(Le, Sort(Le, x), x);
  }

  // ------------------------------------------------------------ round trips

  /** A single-member object is read through its only member. */
  lemma DecodeSingle(go: Go, tag: Tag, j: Json)
    requires Lawful(go)
    ensures Decode(go, Tagged(tag, j)) == DecodeTagged(go, tag, j)
  {
    var keys := go.order({tag.Text()});
    assert |keys| == 1 && keys[0] in keys;
    assert keys == [tag.Text()];
    TagRoundTrip(tag);
    assert Tagged(tag, j).fields.Keys == {tag.Text()};
  }

  lemma StringsRoundTrip(s: seq<Bytes>)
    ensures AsStrings(JArray(Strings(s))) == s
  {
  }

  predicate IsText(go: Go, t: Bytes) {
    go.decode64(t).Some? && go.encode64(go.decode64(t).value) == t
  }

  lemma {:induction false} TextsDecode(go: Go, texts: seq<Bytes>)
    requires forall i | 0 <= i < |texts| :: IsText(go, texts[i])
    ensures DecodeTexts(go, texts) == Some(Binaries(go, texts))
    ensures Texts(go, Binaries(go, texts)) == texts
  {
    if texts != [] {
      assert IsText(go, texts[0]);
      TextsDecode(go, texts[1..]);
      var rest := Binaries(go, texts[1..]);
      assert Binaries(go, texts)[1..] == rest;
      forall i | 0 <= i < |texts| ensures Texts(go, Binaries(go, texts))[i] == texts[i] {
        if i > 0 {
          assert Texts(go, rest)[i - 1] == texts[1..][i - 1];
        }
      }
    }
  }

  /** The texts of a binary set decode in any arrangement. */
  lemma SortedTextsDecode(go: Go, x: seq<Bytes>)
    requires Lawful(go)
    ensures DecodeTexts(go, Sort(Le, Texts(go, x))) == Some(Binaries(go, Sort(Le, Texts(go, x))))
    ensures Texts(go, Binaries(go, Sort(Le, Texts(go, x)))) == Sort(Le, Texts(go, x))
  {
    var texts := Texts(go, x);
    var sorted := Sort(Le, texts);
    SortMultiset(Le, texts);
    forall k | 0 <= k < |sorted| ensures IsText(go, sorted[k]) {
      assert sorted[k] in multiset(sorted) && sorted[k] in texts;
      var i :| 0 <= i < |texts| && texts[i] == sorted[k];
      assert sorted[k] == go.encode64(x[i]);
    }
    TextsDecode(go, sorted);
  }

  lemma DecodeEncodeFlat(go: Go, v: Attr)
    requires Lawful(go) && !v.L? && !v.M? && !v.SS? && !v.NS? && !v.BS? && !v.Unknown?
    ensures Decode(go, Encode(go, v).value) == Some(Canonical(go, v))
  {
    match v
    case S(x) => DecodeSingle(go, TS, JString(x));
    case N(x) => DecodeSingle(go, TN, JString(x));
    case B(x) => DecodeSingle(go, TB, JString(go.encode64(x)));
    case BOOL(x) => DecodeSingle(go, TBOOL, JBool(x));
    case NULL(x) => DecodeSingle(go, TNULL, JBool(x));
  }

  lemma DecodeEncodeStrings(go: Go, x: seq<Bytes>)
    requires Lawful(go)
    ensures Decode(go, Encode(go, SS(x)).value) == Some(Canonical(go, SS(x)))
    ensures Decode(go, Encode(go, NS(x)).value) == Some(Canonical(go, NS(x)))
  {
    DecodeSingle(go, TSS, JArray(Strings(Sort(Le, x))));
    DecodeSingle(go, TNS, JArray(Strings(Sort(Le, x))));
    StringsRoundTrip(Sort(Le, x));
  }

  lemma DecodeEncodeBinaries(go: Go, x: seq<Bytes>)
    requires Lawful(go)
    ensures Decode(go, Encode(go, BS(x)).value) == Some(Canonical(go, BS(x)))
  {
    var texts := Sort(Le, Texts(go, x));
    DecodeSingle(go, TBS, JArray(Strings(texts)));
    StringsRoundTrip(texts);
    SortedTextsDecode(go, x);
  }

  /** Decoding what was encoded gives the value back with its sets in order. */
  lemma {:induction false} DecodeEncode(go: Go, v: Attr)
    requires Lawful(go) && Encode(go, v).Some?
    ensures Decode(go, Encode(go, v).value) == Some(Canonical(go, v))
    decreases v, 1
  {
    match v
    case SS(x) =>
      DecodeEncodeStrings(go, x);
    case NS(x) =>
      DecodeEncodeStrings(go, x);
    case BS(x) =>
      DecodeEncodeBinaries(go, x);
    case L(x) =>
      DecodeEncodeList(go, x);
      DecodeElements(go, x, EncodeList(go, x).value);
    case M(x) =>
      forall k | k in x ensures Decode(go, Encode(go, x[k]).value) == Some(Canonical(go, x[k])) {
        DecodeEncode(go, x[k]);
      }
      DecodeMembers(go, x);
    case _ =>
      DecodeEncodeFlat(go, v);
  }

  lemma {:induction false} DecodeEncodeList(go: Go, x: seq<Attr>)
    requires Lawful(go) && EncodeList(go, x).Some?
    ensures DecodeList(go, EncodeList(go, x).value) == Some(CanonicalList(go, x))
    decreases x, 0
  {
    if x != [] {
      DecodeEncode(go, x[0]);
      DecodeEncodeList(go, x[1..]);
      var a := EncodeList(go, x).value;
      assert a[1..] == EncodeList(go, x[1..]).value;
    }
  }

  lemma DecodeElements(go: Go, x: seq<Attr>, a: seq<Json>)
    requires Lawful(go) && EncodeList(go, x) == Some(a) && DecodeList(go, a) == Some(CanonicalList(go, x))
    ensures Decode(go, Encode(go, L(x)).value) == Some(Canonical(go, L(x)))
  {
    DecodeTaggedList(go, a, CanonicalList(go, x));
  }

  lemma DecodeTaggedList(go: Go, a: seq<Json>, x: seq<Attr>)
    requires Lawful(go) && DecodeList(go, a) == Some(x)
    ensures Decode(go, Tagged(TL, JArray(a))) == Some(L(x))
  {
    DecodeSingle(go, TL, JArray(a));
  }

  lemma DecodeMembers(go: Go, x: Item)
    requires Lawful(go) && Encode(go, M(x)).Some?
    requires forall k | k in x :: Decode(go, Encode(go, x[k]).value) == Some(Canonical(go, x[k]))
    ensures Decode(go, Encode(go, M(x)).value) == Some(Canonical(go, M(x)))
  {
    var fields := map k | k in x && Encode(go, x[k]).Some? :: Encode(go, x[k]).value;
    assert Encode(go, M(x)).value == Tagged(TM, JObject(fields));
    DecodeSingle(go, TM, JObject(fields));
    FieldsDecode(go, fields, CanonicalItem(go, x));
  }

  lemma FieldsDecode(go: Go, fields: map<Bytes, Json>, item: Item)
    requires fields.Keys == item.Keys && forall k | k in item :: Decode(go, fields[k]) == Some(item[k])
    ensures DecodeTagged(go, TM, JObject(fields)) == Some(M(item))
    ensures DecodeItem(go, JObject(fields)) == Some(item)
  {
    assert (map k | k in fields && Decode(go, fields[k]).Some? :: Decode(go, fields[k]).value) == item;
  }

  /** Encoding the canonical value writes the same document again. */
  lemma {:induction false} EncodeCanonical(go: Go, v: Attr)
    requires Lawful(go)
    ensures Encode(go, Canonical(go, v)) == Encode(go, v)
    decreases v, 1
  {
    match v
    case SS(x) => SortTwice(x);
    case NS(x) => SortTwice(x);
    case BS(x) =>
      SortedTextsDecode(go, x);
      SortTwice(Texts(go, x));
    case L(x) => EncodeCanonicalList(go, x);
    case M(x) =>
      forall k | k in x ensures Encode(go, Canonical(go, x[k])) == Encode(go, x[k]) {
        EncodeCanonical(go, x[k]);
      }
      EncodeMembers(go, x, CanonicalItem(go, x));
    case _ =>
  }

  lemma {:induction false} EncodeCanonicalList(go: Go, x: seq<Attr>)
    requires Lawful(go)
    ensures EncodeList(go, CanonicalList(go, x)) == EncodeList(go, x)
    decreases x, 0
  {
    if x != [] {
      EncodeCanonical(go, x[0]);
      EncodeCanonicalList(go, x[1..]);
      assert CanonicalList(go, x)[1..] == CanonicalList(go, x[1..]);
    }
  }

  lemma EncodeMembers(go: Go, x: Item, y: Item)
    requires y.Keys == x.Keys && forall k | k in x :: Encode(go, y[k]) == Encode(go, x[k])
    ensures Encode(go, M(y)) == Encode(go, M(x)) && EncodeItem(go, y) == EncodeItem(go, x)
  {
    if forall k | k in x :: Encode(go, x[k]).Some? {
      var a := map k | k in x && Encode(go, x[k]).Some? :: Encode(go, x[k]).value;
      var b := map k | k in y && Encode(go, y[k]).Some? :: Encode(go, y[k]).value;
      assert a == b;
    } else {
      var k :| k in x && Encode(go, x[k]).None?;
      assert k in y && Encode(go, y[k]).None?;
    }
  }

  /** Two values have the same document exactly when they differ only in the
      order of their sets. */
  lemma SameDocument(go: Go, v: Attr, w: Attr)
    requires Lawful(go) && Supported(v) && Supported(w)
    ensures Encode(go, v) == Encode(go, w) <==> Canonical(go, v) == Canonical(go, w)
  {
    EncodesExactly(go, v);
    EncodesExactly(go, w);
    DecodeEncode(go, v);
    DecodeEncode(go, w);
    EncodeCanonical(go, v);
    EncodeCanonical(go, w);
  }

  /** The checks on resume (decode, encode again, compare) accept every document
      the encoder wrote: cursors (lines 890-897) and candidates (988-995). */
  lemma CanonicalCheckAccepts(go: Go, item: Item)
    requires Lawful(go) && EncodeItem(go, item).Some?
    ensures DecodeItem(go, EncodeItem(go, item).value) == Some(CanonicalItem(go, item))
    ensures EncodeItem(go, CanonicalItem(go, item)) == EncodeItem(go, item)
  {
    var fields := EncodeItem(go, item).value.fields;
    forall k | k in item ensures Decode(go, fields[k]) == Some(Canonical(go, item[k])) {
      DecodeEncode(go, item[k]);
    }
    forall k | k in item ensures Encode(go, Canonical(go, item[k])) == Encode(go, item[k]) {
      EncodeCanonical(go, item[k]);
    }
    FieldsDecode(go, fields, CanonicalItem(go, item));
    EncodeMembers(go, item, CanonicalItem(go, item));
  }

  predicate Scalar(v: Attr) {
    v.S? || v.N? || v.B?
  }

  /** A table key has scalar attributes, so a cursor survives the checkpoint
      unchanged: a resumed scan continues at exactly the same place. */
  lemma CursorRoundTrip(go: Go, key: Item)
    requires Lawful(go) && forall k | k in key :: Scalar(key[k])
    ensures EncodeItem(go, key).Some?
    ensures DecodeItem(go, EncodeItem(go, key).value) == Some(key)
  {
    forall k | k in key ensures Encode(go, key[k]).Some? && Canonical(go, key[k]) == key[k] {
      assert Scalar(key[k]);
    }
    CanonicalCheckAccepts(go, key);
    assert CanonicalItem(go, key) == key;
  }
}
