/** The cache of derived pseudonym keys in internal/governance/transform.go. */
module KeyCache {
  import opened ByteStrings
  import opened Wrappers

  const COLON: Byte := 58

  /** "floceed/governance/domain/v1" */
  const DOMAIN: Bytes := [102, 108, 111, 99, 101, 101, 100, 47, 103, 111, 118, 101, 114, 110, 97, 110, 99, 101, 47,
                          100, 111, 109, 97, 105, 110, 47, 118, 49]

  // -------------------------------------------------------------- encodeDomain

  function EncodeField(field: Bytes): Bytes {
    [NUL] + Itoa(|field|) + [COLON] + field
  }

  function EncodeFields(fields: seq<Bytes>): Bytes {
    if fields == [] then [] else EncodeField(fields[0]) + EncodeFields(fields[1..])
  }

  function EncodeDomain(fields: seq<Bytes>): Bytes {
    DOMAIN + EncodeFields(fields)
  }

  /** The length in front of a field says where it ends. */
  lemma FieldIsPrefixFree(a: Bytes, b: Bytes, x: Bytes, y: Bytes)
    requires EncodeField(a) + x == EncodeField(b) + y
    ensures a == b && x == y
  {
    var s, t := Itoa(|a|), Itoa(|b|);
    var all := EncodeField(a) + x;
    assert all[1..] == s + [COLON] + (a + x) && all[1..] == t + [COLON] + (b + y);
    SplitAtFirst(COLON, s, a + x, t, b + y);
    ItoaInjective(|a|, |b|);
    assert a == (a + x)[..|a|] && b == (b + y)[..|b|] && x == (a + x)[|a|..] && y == (b + y)[|b|..];
  }

  lemma {:induction false} EncodeFieldsInjective(a: seq<Bytes>, b: seq<Bytes>)
    requires EncodeFields(a) == EncodeFields(b)
    ensures a == b
  {
    if a == [] || b == [] {
      assert a == b;
    } else {
      FieldIsPrefixFree(a[0], b[0], EncodeFields(a[1..]), EncodeFields(b[1..]));
      EncodeFieldsInjective(a[1..], b[1..]);
      assert a == [a[0]] + a[1..] && b == [b[0]] + b[1..];
    }
  }

  /** Different lists of fields have different encodings, whatever the fields
      contain: NUL, colons and digits included. */
  lemma EncodeDomainInjective(a: seq<Bytes>, b: seq<Bytes>)
    requires EncodeDomain(a) == EncodeDomain(b)
    ensures a == b
  {
    assert EncodeFields(a) == EncodeDomain(a)[|DOMAIN|..] == EncodeFields(b);
    EncodeFieldsInjective(a, b);
  }

  // ---------------------------------------------------------------- the engine

  /** The fields of a rule that take part in the derivation. */
  datatype Rule = Rule(keyId: Bytes, scope: Bytes, service: Bytes, resource: Bytes, id: Bytes, kind: Bytes, path: Bytes)

  /** The secret and profile of an engine, and HKDF-SHA256 as a function of the key
      ID in the salt and of the domain. */
  datatype Engine = Engine(purpose: Bytes, profile: Bytes, expand: (Bytes, Bytes) -> Bytes)

  function CacheFields(r: Rule): seq<Bytes> {
    [r.keyId, r.scope, r.service, r.resource, r.id, r.kind, r.path]
  }

  function CacheKey(r: Rule): Bytes {
    EncodeDomain(CacheFields(r))
  }

  function DomainFields(e: Engine, r: Rule): seq<Bytes> {
    [e.purpose, r.keyId, r.scope, e.profile, r.service, r.resource, r.id, r.kind, r.path]
  }

  predicate HasNul(fields: seq<Bytes>) {
    exists i | 0 <= i < |fields| :: NUL in fields[i]
  }

  /** deriveKey; None stands for ErrInvalidTransformation. */
  function DeriveKey(e: Engine, r: Rule): Option<Bytes> {
    if HasNul(DomainFields(e, r)) then None else Some(e.expand(r.keyId, EncodeDomain(DomainFields(e, r))))
  }

  /** Rules that share a cache entry share their derived key. */
  lemma SameEntrySameKey(e: Engine, a: Rule, b: Rule)
    requires CacheKey(a) == CacheKey(b)
    ensures DeriveKey(e, a) == DeriveKey(e, b)
  {
    EncodeDomainInjective(CacheFields(a), CacheFields(b));
    var s, t := CacheFields(a), CacheFields(b);
    assert s[0] == t[0] && s[1] == t[1] && s[2] == t[2] && s[3] == t[3] && s[4] == t[4] && s[5] == t[5] && s[6] == t[6];
  }

  /** With one secret, derived keys are equal exactly if the algorithm, the profile and
      everything that names the rule and its target are. */
  lemma DerivedKeysTell(e: Engine, a: Rule, f: Engine, b: Rule)
    requires e.expand == f.expand && DeriveKey(e, a).Some? && DeriveKey(f, b).Some?
    requires forall s, x, r, y :: e.expand(s, x) == e.expand(r, y) ==> s == r && x == y
    ensures DeriveKey(e, a) == DeriveKey(f, b) <==> a == b && e.purpose == f.purpose && e.profile == f.profile
  {
    var s, t := DomainFields(e, a), DomainFields(f, b);
    if DeriveKey(e, a) == DeriveKey(f, b) {
      EncodeDomainInjective(s, t);
      assert s[0] == t[0] && s[1] == t[1] && s[2] == t[2] && s[3] == t[3] && s[4] == t[4];
      assert s[5] == t[5] && s[6] == t[6] && s[7] == t[7] && s[8] == t[8];
    }
  }

  /** A call of pseudonymKey: before the look-up, with a derived key that has not
      been offered to the cache, or finished with a key or an error. */
  datatype Call = Called(rule: Rule) | Derived(rule: Rule, key: Bytes) | Returned(rule: Rule, result: Option<Bytes>)

  class Cache {
    const engine: Engine
    var keys: map<Bytes, Bytes>

    /** Every entry is the key that would be derived now. */
    ghost predicate Valid()
      reads this
    {
      forall r: Rule | CacheKey(r) in keys :: DeriveKey(engine, r) == Some(keys[CacheKey(r)])
    }

    constructor (engine: Engine)
      ensures Valid() && this.engine == engine
    {
      this.engine, keys := engine, map[];
    }

    /** The look-up under the read lock, and the derivation if there is no entry. */
    method Lookup(r: Rule) returns (call: Call)
      requires Valid()
      ensures call.rule == r && Right(engine, call) && !call.Called?
    {
      var cacheKey := CacheKey(r);
      if cacheKey in keys {
        return Returned(r, Some(keys[cacheKey]));
      }
      var derived := DeriveKey(engine, r);
      call := if derived.None? then Returned(r, None) else Derived(r, derived.value);
    }

    /** The second look-up under the write lock. An entry is never replaced. */
    method Insert(r: Rule, derived: Bytes) returns (call: Call)
      requires Valid() && DeriveKey(engine, r) == Some(derived)
      modifies this
      ensures Valid() && call == Returned(r, Some(derived))
      ensures CacheKey(r) in keys && keys == old(keys)[CacheKey(r) := keys[CacheKey(r)]]
      ensures forall k | k in old(keys) :: k in keys && keys[k] == old(keys)[k]
    {
      var cacheKey := CacheKey(r);
      if cacheKey !in keys {
        forall q: Rule | CacheKey(q) == cacheKey ensures DeriveKey(engine, q) == Some(derived) {
          SameEntrySameKey(engine, q, r);
        }
        keys := keys[cacheKey := derived];
      }
      call := Returned(r, Some(keys[cacheKey]));
    }
  }

  /** The call is on its way to the derived key, or has returned it. */
  ghost predicate Right(e: Engine, c: Call) {
    match c
    case Called(r) => true
    case Derived(r, key) => DeriveKey(e, r) == Some(key)
    case Returned(r, result) => result == DeriveKey(e, r)
  }

  /** Any interleaving of any calls: `schedule` says whose critical section is next.
      Every call that returns has exactly the key that deriveKey gives for its rule. */
  method Interleave(cache: Cache, rules: seq<Rule>, schedule: seq<nat>) returns (calls: seq<Call>)
    requires cache.Valid()
    modifies cache
    ensures cache.Valid() && |calls| == |rules|
    ensures forall i | 0 <= i < |calls| :: calls[i].rule == rules[i] && Right(cache.engine, calls[i])
    ensures forall k | k in old(cache.keys) :: k in cache.keys && cache.keys[k] == old(cache.keys)[k]
  {
    calls := seq(|rules|, i requires 0 <= i < |rules| => Called(rules[i]));
    for n := 0 to |schedule|
      invariant cache.Valid() && |calls| == |rules|
      invariant forall i | 0 <= i < |calls| :: calls[i].rule == rules[i] && Right(cache.engine, calls[i])
      invariant forall k | k in old(cache.keys) :: k in cache.keys && cache.keys[k] == old(cache.keys)[k]
    {
      var i := schedule[n];
      if i < |calls| {
        var call := calls[i];
        if call.Called? {
          call := cache.Lookup(call.rule);
        } else if call.Derived? {
          call := cache.Insert(call.rule, call.key);
        }
        calls := calls[i := call];
      }
    }
  }
}
