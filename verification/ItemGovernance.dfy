/** What governance rules do to an item (governItemCompiled as a function, and
    Engine.Apply in internal/governance/transform.go). */
module ItemGovernance {
  import opened ByteStrings
  import opened AttributeCodec
  import opened Sorting
  import opened Wrappers
  import KeyCache

  const DOT: Byte := 46
  const MIN_SECRET: nat := 32

  /** "hash/v1:" */
  const HASHED: Bytes := [104, 97, 115, 104, 47, 118, 49, 58]

  /** "true" and "false" */
  const TRUE: Bytes := [116, 114, 117, 101]
  const FALSE: Bytes := [102, 97, 108, 115, 101]

  type Path = p: seq<Name> | p != [] witness [[]]

  /** strings.Split(path, "."). */
  function SplitDots(s: Bytes): Path {
    if s == [] then [[]]
    else
      var rest := SplitDots(s[1..]);
      if s[0] == DOT then [[]] + rest else [[s[0]] + rest[0]] + rest[1..]
  }

  // ---------------------------------------------------------- transformations

  datatype Action = Omit | Replace(text: Bytes) | Hash | Pseudonymize(algorithm: Bytes) | Unsupported

  /** A compiled rule; the key fields carry its ID and its path. */
  datatype Rule = Rule(key: KeyCache.Rule, action: Action) {
    function Parts(): Path { SplitDots(key.path) }
  }

  /** The engine with SHA-256 and HMAC, both in hex. */
  datatype Tools = Tools(engine: KeyCache.Engine, secretSize: nat, hash: Bytes -> Bytes, mac: (Bytes, Bytes) -> Bytes)

  datatype Result = Omitted | Rewritten(text: Bytes)

  /** Engine.Apply; None stands for ErrInvalidTransformation. */
  function Apply(t: Tools, r: Rule, source: Bytes): Option<Result> {
    match r.action
    case Omit => Some(Omitted)
    case Replace(text) => Some(Rewritten(text))
    case Hash => Some(Rewritten(HASHED + t.hash(source)))
    case Pseudonymize(algorithm) =>
      if t.secretSize < MIN_SECRET || (algorithm != [] && algorithm != t.engine.purpose) then None
      else
        var key := KeyCache.DeriveKey(t.engine, r.key);
        if key.None? then None else Some(Rewritten(t.engine.purpose + [KeyCache.COLON] + t.mac(key.value, source)))
    case Unsupported => None
  }

  function ScalarBytes(v: Attr): Option<Bytes> {
    match v
    case S(x) => Some(x)
    case N(x) => Some(x)
    case B(x) => Some(x)
    case BOOL(x) => Some(if x then TRUE else FALSE)
    case NULL(x) => Some(if x then TRUE else FALSE)
    case _ => None
  }

  /** What becomes of one attribute: None is an error, Some(None) its removal. */
  function Change(t: Tools, r: Rule, v: Attr): Option<Option<Attr>> {
    var source := ScalarBytes(v);
    if source.None? then None
    else
      match Apply(t, r, source.value)
      case None => None
      case Some(Omitted) => Some(None)
      case Some(Rewritten(text)) =>
        match v
        case S(_) => Some(Some(S(text)))
        case B(_) => Some(Some(B(text)))
        case _ => None
  }

  // ------------------------------------------------------------- specification

  /** A rule that finds nothing at its path leaves the item alone. */
  datatype Outcome = Failed | Missed | Fired(item: Item)

  /** attributeAtPath. */
  function AtPath(item: Item, path: Path): Option<Attr>
    decreases |path|
  {
    if path[0] !in item then None
    else if |path| == 1 then Some(item[path[0]])
    else if item[path[0]].M? then AtPath(item[path[0]].members, path[1..])
    else None
  }

  function GovernAt(t: Tools, r: Rule, item: Item, path: Path): Outcome
    decreases |path|
  {
    if path[0] !in item then Missed
    else if |path| == 1 then
      match Change(t, r, item[path[0]])
      case None => Failed
      case Some(None) => Fired(item - {path[0]})
      case Some(Some(v)) => Fired(item[path[0] := v])
    else if item[path[0]].M? then
      match GovernAt(t, r, item[path[0]].members, path[1..])
      case Fired(inner) => Fired(item[path[0] := M(inner)])
      case other => other
    else Missed
  }

  /** All rules in their order, with the IDs of those that fired. */
  function Govern(t: Tools, rules: seq<Rule>, item: Item): Option<(Item, seq<Bytes>)> {
    if rules == [] then Some((item, []))
    else
      match GovernAt(t, rules[0], item, rules[0].Parts())
      case Failed => None
      case Missed => Govern(t, rules[1..], item)
      case Fired(next) =>
        var rest := Govern(t, rules[1..], next);
        if rest.None? then None else Some((rest.value.0, [rules[0].key.id] + rest.value.1))
  }

  // ------------------------------------------------------ what governing means

  /** A rule fires exactly if there is an attribute at its path that it can change. */
  lemma {:induction false} FiresExactly(t: Tools, r: Rule, item: Item, path: Path)
    ensures GovernAt(t, r, item, path) == Missed <==> AtPath(item, path).None?
    ensures GovernAt(t, r, item, path) == Failed
            <==> AtPath(item, path).Some? && Change(t, r, AtPath(item, path).value).None?
    decreases |path|
  {
    if |path| > 1 && path[0] in item && item[path[0]].M? {
      FiresExactly(t, r, item[path[0]].members, path[1..]);
    }
  }

  predicate Unrelated(p: Path, q: Path) {
    !(p <= q) && !(q <= p)
  }

  /** It changes what is at its path and nothing that is elsewhere. */
  lemma {:induction false} ChangesOnlyPath(t: Tools, r: Rule, item: Item, path: Path, other: Path)
    requires GovernAt(t, r, item, path).Fired? && Unrelated(path, other)
    ensures AtPath(item, path).Some? && Change(t, r, AtPath(item, path).value).Some?
    ensures AtPath(GovernAt(t, r, item, path).item, path) == Change(t, r, AtPath(item, path).value).value
    ensures AtPath(GovernAt(t, r, item, path).item, other) == AtPath(item, other)
    decreases |path|
  {
    hide Change;
    if |path| > 1 && |other| > 1 && path[0] == other[0] {
      assert path == [path[0]] + path[1..] && other == [other[0]] + other[1..];
      ChangesOnlyPath(t, r, item[path[0]].members, path[1..], other[1..]);
    } else {
      ChangesPath(t, r, item, path);
      KeepsOthers(t, r, item, path, other[0]);
    }
  }

  lemma {:induction false} ChangesPath(t: Tools, r: Rule, item: Item, path: Path)
    requires GovernAt(t, r, item, path).Fired?
    ensures AtPath(item, path).Some? && Change(t, r, AtPath(item, path).value).Some?
    ensures AtPath(GovernAt(t, r, item, path).item, path) == Change(t, r, AtPath(item, path).value).value
    decreases |path|
  {
    hide Change;
    if |path| > 1 {
      ChangesPath(t, r, item[path[0]].members, path[1..]);
    }
  }

  lemma KeepsOthers(t: Tools, r: Rule, item: Item, path: Path, name: Name)
    requires GovernAt(t, r, item, path).Fired? && name != path[0]
    ensures var out := GovernAt(t, r, item, path).item;
            (name in out <==> name in item) && (name in item ==> out[name] == item[name])
  {
  }

  /** A governed item has an encoding whenever the item has one. */
  lemma {:induction false} StaysSupported(t: Tools, r: Rule, item: Item, path: Path)
    requires GovernAt(t, r, item, path).Fired? && Supported(M(item))
    ensures Supported(M(GovernAt(t, r, item, path).item))
    decreases |path|
  {
    if |path| > 1 {
      StaysSupported(t, r, item[path[0]].members, path[1..]);
    }
  }

  lemma {:induction false} GovernedIsSupported(t: Tools, rules: seq<Rule>, item: Item)
    requires Govern(t, rules, item).Some? && Supported(M(item))
    ensures Supported(M(Govern(t, rules, item).value.0))
  {
    hide GovernAt;
    if rules != [] {
      if GovernAt(t, rules[0], item, rules[0].Parts()).Fired? {
        StaysSupported(t, rules[0], item, rules[0].Parts());
      }
      GovernedIsSupported(t, rules[1..], Next(t, rules[0], item));
    }
  }

  /** Only rules of the policy are counted, each at most once an item. */
  lemma {:induction false} FiredAreRules(t: Tools, rules: seq<Rule>, item: Item)
    requires Govern(t, rules, item).Some?
    ensures |Govern(t, rules, item).value.1| <= |rules|
    ensures forall id | id in Govern(t, rules, item).value.1 :: exists i | 0 <= i < |rules| :: rules[i].key.id == id
  {
    hide GovernAt;
    if rules != [] {
      FiredAreRules(t, rules[1..], Next(t, rules[0], item));
      forall id | id in Govern(t, rules, item).value.1 ensures exists i | 0 <= i < |rules| :: rules[i].key.id == id {
        if id != rules[0].key.id {
          assert id in Govern(t, rules[1..], Next(t, rules[0], item)).value.1;
          var i :| 0 <= i < |rules[1..]| && rules[1..][i].key.id == id;
          assert rules[i + 1].key.id == id;
        }
      }
    }
  }

  // -------------------------------------------------------- the order of rules

  ghost function Next(t: Tools, r: Rule, item: Item): Item {
    match GovernAt(t, r, item, r.Parts())
    case Fired(next) => next
    case _ => item
  }

  /** The same item, and the same rules have fired. */
  ghost predicate Same(x: Option<(Item, seq<Bytes>)>, y: Option<(Item, seq<Bytes>)>) {
    && (x.None? <==> y.None?)
    && (x.Some? ==> x.value.0 == y.value.0 && multiset(x.value.1) == multiset(y.value.1))
  }

  /** Rules for unrelated paths do not notice each other. */
  lemma {:induction false} Independent(t: Tools, a: Rule, b: Rule, item: Item, p: Path, q: Path)
    requires Unrelated(p, q) && GovernAt(t, a, item, p).Fired?
    ensures var x := GovernAt(t, a, item, p).item;
            match GovernAt(t, b, item, q)
            case Fired(y) => GovernAt(t, b, x, q).Fired? && GovernAt(t, a, y, p) == GovernAt(t, b, x, q)
            case other => GovernAt(t, b, x, q) == other
    decreases |p|
  {
    hide Change;
    var x := GovernAt(t, a, item, p).item;
    if p[0] != q[0] {
      KeepsOthers(t, a, item, p, q[0]);
      if GovernAt(t, b, item, q).Fired? {
        KeepsOthers(t, b, item, q, p[0]);
      }
    } else {
      assert p == [p[0]] + p[1..] && q == [q[0]] + q[1..];
      assert |p| > 1 && |q| > 1;
      Independent(t, a, b, item[p[0]].members, p[1..], q[1..]);
    }
  }

  /** `fired` in front of what the remaining rules do. */
  ghost function Ahead(fired: seq<Bytes>, rest: Option<(Item, seq<Bytes>)>): Option<(Item, seq<Bytes>)> {
    if rest.None? then None else Some((rest.value.0, fired + rest.value.1))
  }

  lemma First(t: Tools, r: Rule, rest: seq<Rule>, item: Item)
    ensures Govern(t, [r] + rest, item) ==
            match GovernAt(t, r, item, r.Parts())
            case Failed => None
            case Missed => Govern(t, rest, item)
            case Fired(next) => Ahead([r.key.id], Govern(t, rest, next))
  {
    hide GovernAt;
    assert ([r] + rest)[1..] == rest;
  }

  lemma ConsSame(t: Tools, r: Rule, x: seq<Rule>, y: seq<Rule>, item: Item)
    requires Same(Govern(t, x, Next(t, r, item)), Govern(t, y, Next(t, r, item)))
    ensures Same(Govern(t, [r] + x, item), Govern(t, [r] + y, item))
  {
    hide GovernAt, Govern;
    First(t, r, x, item);
    First(t, r, y, item);
  }

  lemma FirstTwo(t: Tools, a: Rule, b: Rule, rest: seq<Rule>, item: Item)
    ensures Govern(t, [a, b] + rest, item) ==
            match GovernAt(t, a, item, a.Parts())
            case Failed => None
            case Missed =>
              (match GovernAt(t, b, item, b.Parts())
               case Failed => None
               case Missed => Govern(t, rest, item)
               case Fired(y) => Ahead([b.key.id], Govern(t, rest, y)))
            case Fired(x) =>
              (match GovernAt(t, b, x, b.Parts())
               case Failed => None
               case Missed => Ahead([a.key.id], Govern(t, rest, x))
               case Fired(y) => Ahead([a.key.id], Ahead([b.key.id], Govern(t, rest, y))))
  {
    hide GovernAt, Govern;
    assert [a, b] + rest == [a] + ([b] + rest);
    First(t, a, [b] + rest, item);
    First(t, b, rest, Next(t, a, item));
  }

  /** A rule for a map and a rule below it never both fire: the first one fails on a
      map, and on anything else the second one finds nothing. */
  lemma {:induction false} Nested(t: Tools, a: Rule, b: Rule, item: Item, p: Path, q: Path)
    requires p < q
    ensures GovernAt(t, b, item, q) != Missed ==> GovernAt(t, a, item, p) == Failed
    ensures GovernAt(t, a, item, p).Fired? ==> GovernAt(t, b, GovernAt(t, a, item, p).item, q) == Missed
    ensures GovernAt(t, b, item, q).Fired? ==> GovernAt(t, a, GovernAt(t, b, item, q).item, p) == Failed
    decreases |p|
  {
    assert p[0] == q[0];
    if |p| > 1 {
      assert p[1..] < q[1..];
      if p[0] in item && item[p[0]].M? {
        Nested(t, a, b, item[p[0]].members, p[1..], q[1..]);
      }
    }
  }

  lemma SwapNested(t: Tools, a: Rule, b: Rule, rest: seq<Rule>, item: Item)
    requires a.Parts() < b.Parts()
    ensures Same(Govern(t, [a, b] + rest, item), Govern(t, [b, a] + rest, item))
  {
    hide GovernAt, Govern, SplitDots;
    FirstTwo(t, a, b, rest, item);
    FirstTwo(t, b, a, rest, item);
    Nested(t, a, b, item, a.Parts(), b.Parts());
  }

  lemma SwapUnrelated(t: Tools, a: Rule, b: Rule, rest: seq<Rule>, item: Item)
    requires Unrelated(a.Parts(), b.Parts())
    ensures Same(Govern(t, [a, b] + rest, item), Govern(t, [b, a] + rest, item))
  {
    hide GovernAt, Govern, SplitDots;
    var p, q := a.Parts(), b.Parts();
    FirstTwo(t, a, b, rest, item);
    FirstTwo(t, b, a, rest, item);
    if GovernAt(t, a, item, p).Fired? {
      Independent(t, a, b, item, p, q);
    }
    if GovernAt(t, b, item, q).Fired? {
      Independent(t, b, a, item, q, p);
    }
  }

  /** Two rules for different paths may change places. */
  lemma SwapTwo(t: Tools, a: Rule, b: Rule, rest: seq<Rule>, item: Item)
    requires a.Parts() != b.Parts()
    ensures Same(Govern(t, [a, b] + rest, item), Govern(t, [b, a] + rest, item))
  {
    hide Govern, SplitDots;
    if a.Parts() < b.Parts() {
      SwapNested(t, a, b, rest, item);
    } else if b.Parts() < a.Parts() {
      SwapNested(t, b, a, rest, item);
    } else {
      SwapUnrelated(t, a, b, rest, item);
    }
  }

  /** A rule may be moved in front of rules for other paths. */
  lemma {:induction false} MoveToFront(t: Tools, before: seq<Rule>, r: Rule, after: seq<Rule>, item: Item)
    requires forall b | b in before :: r.Parts() != b.Parts()
    ensures Same(Govern(t, before + [r] + after, item), Govern(t, [r] + before + after, item))
  {
    hide GovernAt, Govern, SplitDots;
    if before == [] {
      assert before + [r] + after == [r] + before + after;
    } else {
      var b, others := before[0], before[1..];
      MoveToFront(t, others, r, after, Next(t, b, item));
      ConsSame(t, b, others + [r] + after, [r] + others + after, item);
      assert [b] + (others + [r] + after) == before + [r] + after;
      SwapTwo(t, b, r, others + after, item);
      assert [b] + ([r] + others + after) == [b, r] + (others + after);
      assert [r] + before + after == [r, b] + (others + after);
    }
  }

  lemma SplitDotsEmpty(s: Bytes)
    ensures SplitDots(s) == [[]] <==> s == []
  {
    if s != [] {
      assert |SplitDots(s)| > 1 || |SplitDots(s)[0]| > 0;
    }
  }

  /** Different paths have different parts. */
  lemma {:induction false} SplitDotsInjective(a: Bytes, b: Bytes)
    requires SplitDots(a) == SplitDots(b)
    ensures a == b
    decreases |a| + |b|
  {
    SplitDotsEmpty(a);
    SplitDotsEmpty(b);
    if a != [] && b != [] {
      var x, y := SplitDots(a[1..]), SplitDots(b[1..]);
      if a[0] == DOT {
        assert SplitDots(a)[0] == [] && SplitDots(a)[1..] == x;
        assert SplitDots(b)[1..] == y;
      } else {
        assert SplitDots(a)[0] == [a[0]] + x[0] && SplitDots(a)[1..] == x[1..];
        assert SplitDots(b)[0] == [b[0]] + y[0] && SplitDots(b)[1..] == y[1..];
        assert x[0] == SplitDots(a)[0][1..] == y[0];
        assert x == [x[0]] + x[1..] && y == [y[0]] + y[1..];
      }
      SplitDotsInjective(a[1..], b[1..]);
      assert a == [a[0]] + a[1..] && b == [b[0]] + b[1..];
    }
  }

  predicate DifferentPaths(rules: seq<Rule>) {
    forall i, j | 0 <= i < j < |rules| :: rules[i].key.path != rules[j].key.path
  }

  /** Rules for different paths govern an item alike in every order: the same item,
      the same counts, the same errors. One path may lead through another. */
  lemma {:induction false} OrderDoesNotMatter(t: Tools, a: seq<Rule>, b: seq<Rule>, item: Item)
    requires DifferentPaths(a) && multiset(a) == multiset(b)
    ensures Same(Govern(t, a, item), Govern(t, b, item))
    decreases |a|
  {
    hide GovernAt, Govern, SplitDots, DifferentPaths;
    if a == [] {
      assert b == [];
    } else {
      var r := a[0];
      var before, after := Located(a, b);
      Rest(a);
      MoveToFront(t, before, r, after, item);
      OrderDoesNotMatter(t, a[1..], before + after, Next(t, r, item));
      ConsSame(t, r, a[1..], before + after, item);
      assert a == [r] + a[1..] && [r] + before + after == [r] + (before + after);
    }
  }

  lemma Rest(a: seq<Rule>)
    requires a != [] && DifferentPaths(a)
    ensures DifferentPaths(a[1..])
  {
  }

  /** Where the first rule of a stands in b. */
  lemma Located(a: seq<Rule>, b: seq<Rule>) returns (before: seq<Rule>, after: seq<Rule>)
    requires a != [] && DifferentPaths(a) && multiset(a) == multiset(b)
    ensures b == before + [a[0]] + after && multiset(a[1..]) == multiset(before + after)
    ensures forall x | x in before :: a[0].Parts() != x.Parts()
  {
    hide SplitDots;
    var i := PermutationHead(a, b);
    before, after := b[..i], b[i + 1..];
    assert b == before + [b[i]] + after;
    forall x | x in before ensures a[0].Parts() != x.Parts() {
      assert x in multiset(before + after) && x in multiset(a[1..]);
      var j :| 0 <= j < |a[1..]| && a[1..][j] == x;
      assert a[j + 1] == x;
      if a[0].Parts() == x.Parts() {
        SplitDotsInjective(a[0].key.path, x.key.path);
      }
    }
  }

  // ------------------------------------------------- what the loader accepts

  /** The service, resource, kind and path of a rule. */
  function Target(r: Rule): Bytes {
    JoinNul([r.key.service, r.key.resource, r.key.kind, r.key.path])
  }

  /** No ID and no target occurs twice. */
  predicate Disjoint(rules: seq<Rule>) {
    forall i, j | 0 <= i < j < |rules| :: rules[i].key.id != rules[j].key.id && Target(rules[i]) != Target(rules[j])
  }

  /** The two checks of a fixture profile against repeated rules; paths are trimmed. */
  method CheckProfile(rules: seq<Rule>) returns (ok: bool)
    ensures ok <==> Disjoint(rules)
  {
    hide Target;
    var ids, targets := {}, {};
    for i := 0 to |rules|
      invariant ids == set k | 0 <= k < i :: rules[k].key.id
      invariant targets == set k | 0 <= k < i :: Target(rules[k])
      invariant Disjoint(rules[..i])
    {
      if rules[i].key.id in ids || Target(rules[i]) in targets {
        return false;
      }
      ids, targets := ids + {rules[i].key.id}, targets + {Target(rules[i])};
    }
    assert rules[..|rules|] == rules;
    ok := true;
  }

  /** The rules for one table. */
  predicate OneTable(rules: seq<Rule>) {
    forall i, j | 0 <= i < j < |rules| ::
      rules[i].key.service == rules[j].key.service && rules[i].key.resource == rules[j].key.resource
      && rules[i].key.kind == rules[j].key.kind
  }

  /** Rules of an accepted profile govern the items of a table alike in every order. */
  lemma AcceptedRulesCommute(t: Tools, a: seq<Rule>, b: seq<Rule>, item: Item)
    requires Disjoint(a) && OneTable(a) && multiset(a) == multiset(b)
    ensures Same(Govern(t, a, item), Govern(t, b, item))
  {
    hide Govern, JoinNul;
    assert DifferentPaths(a);
    OrderDoesNotMatter(t, a, b, item);
  }

  /** The check is needed: two rules for one path, which it rejects, would show their
      order. Whoever replaces last wins. */
  lemma OverlapWouldShow(t: Tools, x: Rule, y: Rule)
    requires x.key.(id := y.key.id) == y.key && x.key.path == [97] && x.action == Replace([120])
             && y.action == Replace([121])
    ensures !Disjoint([x, y])
    ensures var item: Item := map[[97] := S([])];
            && Govern(t, [x, y], item) == Some((map[[97] := S([121])], [x.key.id, y.key.id]))
            && Govern(t, [y, x], item) == Some((map[[97] := S([120])], [y.key.id, x.key.id]))
  {
    var item: Item := map[[97] := S([])];
    OnePart(97);
    Replaces(t, x, y, item);
    Replaces(t, y, x, item);
    assert item[[97] := S([121])] == map[[97] := S([121])] && item[[97] := S([120])] == map[[97] := S([120])];
    assert Target([x, y][0]) == Target([x, y][1]);
  }

  lemma OnePart(c: Byte)
    requires c != DOT
    ensures SplitDots([c]) == [[c]]
  {
    var s: Bytes := [c];
    assert s[1..] == [] && SplitDots(s[1..]) == [[]] && [c] + [] == s;
  }

  lemma Replaces(t: Tools, x: Rule, y: Rule, item: Item)
    requires x.Parts() == y.Parts() == [[97]] && x.action.Replace? && y.action.Replace? && [97] in item && item[[97]].S?
    ensures Govern(t, [x, y], item) == Some((item[[97] := S(y.action.text)], [x.key.id, y.key.id]))
  {
    var middle := item[[97] := S(x.action.text)];
    assert GovernAt(t, x, item, [[97]]) == Fired(middle);
    assert GovernAt(t, y, middle, [[97]]) == Fired(item[[97] := S(y.action.text)]);
    FirstTwo(t, x, y, [], item);
    assert [x, y] + [] == [x, y] && [x.key.id] + ([y.key.id] + []) == [x.key.id, y.key.id];
  }
}
