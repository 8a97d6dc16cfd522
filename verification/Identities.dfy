/** The identity of a resource and the string keys made from it
    (resourceIdentityKey, resourceKey, identityKey, descriptorKey). */
module Identities {
  import opened ByteStrings

  datatype Identity = Identity(service: Bytes, kind: Bytes, id: Bytes)

  function Fields(i: Identity): seq<Bytes> {
    [i.service, i.kind, i.id]
  }

  function Key(i: Identity): Bytes {
    JoinNul(Fields(i))
  }

  predicate Plain(i: Identity) {
    NoNul(Fields(i))
  }

  /** Without NUL in the names, a key stands for one resource. */
  lemma KeyInjective(a: Identity, b: Identity)
    requires Plain(a) && Plain(b) && Key(a) == Key(b)
    ensures a == b
  {
    JoinInjective(Fields(a), Fields(b));
    assert a.service == Fields(a)[0] && a.kind == Fields(a)[1] && a.id == Fields(a)[2];
    assert b.service == Fields(b)[0] && b.kind == Fields(b)[1] && b.id == Fields(b)[2];
  }

  lemma KeyText(i: Identity)
    ensures Key(i) == i.service + [NUL] + (i.kind + [NUL] + i.id)
  {
    var f := Fields(i);
    assert f[1..] == [i.kind, i.id] && f[1..][1..] == [i.id];
    assert JoinNul(f[1..][1..]) == i.id;
    assert JoinNul(f[1..]) == i.kind + [NUL] + i.id;
  }

  /** With NUL in the names, two resources may share a key. */
  lemma KeysCollide() returns (a: Identity, b: Identity)
    ensures Key(a) == Key(b) && a != b
  {
    a, b := Identity([1], [1], [1, NUL, 1]), Identity([1, NUL, 1], [1], [1]);
    KeyText(a);
    KeyText(b);
    assert Key(a) == [1, NUL, 1, NUL, 1, NUL, 1] == Key(b);
    assert |a.service| != |b.service|;
  }
}
