/** What governing leaves of the values in an item: what each action writes, what
    the result may depend on, and when governing fails. */
module GovernedValues {
  import opened ByteStrings
  import opened AttributeCodec
  import opened Sorting
  import opened ItemGovernance
  import opened Wrappers
  import KeyCache

  // ------------------------------------------------------- one attribute

  /** An attribute that is a string or a binary. */
  predicate Textual(v: Attr) {
    v.S? || v.B?
  }

  /** An attribute without parts. */
  predicate Single(v: Attr) {
    Textual(v) || v.N? || v.BOOL? || v.NULL?
  }

  predicate SameKind(v: Attr, w: Attr) {
    (v.S? && w.S?) || (v.B? && w.B?) || (v.N? && w.N?) || (v.BOOL? && w.BOOL?) || (v.NULL? && w.NULL?)
  }

  function Raw(v: Attr): Bytes
    requires Textual(v)
  {
    if v.S? then v.text else v.binary
  }

  /** The same kind of attribute with another text. */
  function Retold(v: Attr, text: Bytes): Attr
    requires Textual(v)
  {
    if v.S? then S(text) else B(text)
  }

  /** No NUL takes part in the derivation of a pseudonym key. */
  predicate Derivable(t: Tools, r: Rule) {
    && NUL !in t.engine.purpose && NUL !in t.engine.profile && NUL !in r.key.keyId && NUL !in r.key.scope
    && NUL !in r.key.service && NUL !in r.key.resource && NUL !in r.key.id && NUL !in r.key.kind && NUL !in r.key.path
  }

  /** The rule fails on this attribute: on one with parts, and on any but a string or a
      binary unless it omits it; pseudonyms also need a secret, their algorithm and a key. */
  predicate Unfit(t: Tools, r: Rule, v: Attr) {
    || !Single(v)
    || match r.action
       case Omit => false
       case Replace(_) => !Textual(v)
       case Hash => !Textual(v)
       case Pseudonymize(algorithm) =>
         !Textual(v) || t.secretSize < 32 || (algorithm != [] && algorithm != t.engine.purpose) || !Derivable(t, r)
       case Unsupported => true
  }

  /** What a rule leaves of an attribute that it does not fail on. */
  ghost predicate Leaves(t: Tools, r: Rule, v: Attr, left: Option<Attr>) {
    match r.action
    case Omit => left == None
    case Replace(text) => Textual(v) && left == Some(Retold(v, text))
    case Hash => Textual(v) && left == Some(Retold(v, HASHED + t.hash(Raw(v))))
    case Pseudonymize(_) =>
      var key := KeyCache.DeriveKey(t.engine, r.key);
      Textual(v) && key.Some?
      && left == Some(Retold(v, t.engine.purpose + [KeyCache.COLON] + t.mac(key.value, Raw(v))))
    case Unsupported => false
  }

  /** The action does not tell these two values apart. */
  ghost predicate Alike(t: Tools, r: Rule, v: Attr, w: Attr) {
    match r.action
    case Omit => true
    case Replace(_) => true
    case Hash => Textual(v) && Textual(w) && t.hash(Raw(v)) == t.hash(Raw(w))
    case Pseudonymize(_) =>
      Textual(v) && Textual(w) && forall key | KeyCache.DeriveKey(t.engine, r.key) == Some(key) ::
        t.mac(key, Raw(v)) == t.mac(key, Raw(w))
    case Unsupported => false
  }

  lemma NulFields(t: Tools, r: Rule)
    ensures KeyCache.DeriveKey(t.engine, r.key).Some? <==> Derivable(t, r)
  {
    var f := KeyCache.DomainFields(t.engine, r.key);
    assert KeyCache.HasNul(f) <==> NUL in f[0] || NUL in f[1] || NUL in f[2] || NUL in f[3] || NUL in f[4]
                                   || NUL in f[5] || NUL in f[6] || NUL in f[7] || NUL in f[8];
  }

  lemma ChangeFails(t: Tools, r: Rule, v: Attr)
    ensures Change(t, r, v).None? <==> Unfit(t, r, v)
  {
    NulFields(t, r);
  }

  lemma ChangeLeaves(t: Tools, r: Rule, v: Attr)
    requires Change(t, r, v).Some?
    ensures Leaves(t, r, v, Change(t, r, v).value)
  {
  }

  lemma ChangeAlike(t: Tools, r: Rule, v: Attr, w: Attr)
    requires Change(t, r, v).Some? && SameKind(v, w)
    ensures Change(t, r, w).Some? && (Change(t, r, w).value.None? <==> Change(t, r, v).value.None?)
    ensures Change(t, r, v) == Change(t, r, w) <==> Alike(t, r, v, w)
  {
    ChangeFails(t, r, v);
    ChangeFails(t, r, w);
    if r.action.Hash? {
      SameTail(HASHED, t.hash(Raw(v)), t.hash(Raw(w)));
    } else if r.action.Pseudonymize? {
      var key := KeyCache.DeriveKey(t.engine, r.key).value;
      SameTail(t.engine.purpose + [KeyCache.COLON], t.mac(key, Raw(v)), t.mac(key, Raw(w)));
    }
  }

  lemma SameTail(a: Bytes, x: Bytes, y: Bytes)
    ensures a + x == a + y <==> x == y
  {
    assert (a + x)[|a|..] == x && (a + y)[|a|..] == y;
  }

  // ------------------------------------------------------------ one rule

  /** The item with v at the path. */
  function Put(item: Item, path: Path, v: Attr): Item
    requires AtPath(item, path).Some?
    decreases |path|
  {
    if |path| == 1 then item[path[0] := v]
    else item[path[0] := M(Put(item[path[0]].members, path[1..], v))]
  }

  /** The item without anything at the path. */
  function Drop(item: Item, path: Path): Item
    requires AtPath(item, path).Some?
    decreases |path|
  {
    if |path| == 1 then item - {path[0]} else item[path[0] := M(Drop(item[path[0]].members, path[1..]))]
  }

  lemma {:induction false} PutThere(item: Item, path: Path, v: Attr)
    requires AtPath(item, path).Some?
    ensures AtPath(Put(item, path, v), path) == Some(v)
    decreases |path|
  {
    if |path| > 1 {
      PutThere(item[path[0]].members, path[1..], v);
    }
  }

  lemma {:induction false} PutTwice(item: Item, path: Path, v: Attr, w: Attr)
    requires AtPath(item, path).Some? && AtPath(Put(item, path, v), path).Some?
    ensures Put(Put(item, path, v), path, w) == Put(item, path, w)
    decreases |path|
  {
    if |path| > 1 {
      PutTwice(item[path[0]].members, path[1..], v, w);
    }
  }

  lemma {:induction false} DropPut(item: Item, path: Path, v: Attr)
    requires AtPath(item, path).Some? && AtPath(Put(item, path, v), path).Some?
    ensures Drop(Put(item, path, v), path) == Drop(item, path)
    decreases |path|
  {
    if |path| == 1 {
      assert item[path[0] := v] - {path[0]} == item - {path[0]};
    } else {
      DropPut(item[path[0]].members, path[1..], v);
    }
  }

  lemma PutAt(item: Item, path: Path, v: Attr, w: Attr)
    requires AtPath(item, path).Some?
    ensures AtPath(Put(item, path, v), path) == Some(v)
    ensures Put(Put(item, path, v), path, w) == Put(item, path, w)
    ensures Drop(Put(item, path, v), path) == Drop(item, path)
  {
    hide AtPath, Put, Drop;
    PutThere(item, path, v);
    PutTwice(item, path, v, w);
    DropPut(item, path, v);
  }

  lemma {:induction false} DropAt(item: Item, path: Path)
    requires AtPath(item, path).Some?
    ensures AtPath(Drop(item, path), path) == None
    decreases |path|
  {
    if |path| > 1 {
      DropAt(item[path[0]].members, path[1..]);
    }
  }

  /** A rule at work, from what it makes of the attribute. */
  lemma {:induction false} RuleAt(t: Tools, r: Rule, item: Item, path: Path)
    requires AtPath(item, path).Some?
    ensures var change := Change(t, r, AtPath(item, path).value);
            GovernAt(t, r, item, path) ==
            if change.None? then Failed
            else if change.value.None? then Fired(Drop(item, path))
            else Fired(Put(item, path, change.value.value))
    decreases |path|
  {
    hide Change;
    if |path| > 1 {
      RuleAt(t, r, item[path[0]].members, path[1..]);
    }
  }

  /** What a rule does beside a path, whatever single attribute is there. */
  ghost predicate Beside(t: Tools, r: Rule, item: Item, q: Path, p: Path, v: Attr)
    requires AtPath(item, p).Some?
  {
    match GovernAt(t, r, item, q)
    case Fired(next) =>
      AtPath(next, p) == AtPath(item, p) && GovernAt(t, r, Put(item, p, v), q) == Fired(Put(next, p, v))
    case other => GovernAt(t, r, Put(item, p, v), q) == other
  }

  lemma BesideOther(t: Tools, r: Rule, item: Item, q: Path, p: Path, v: Attr)
    requires q[0] != p[0] && AtPath(item, p).Some?
    ensures Beside(t, r, item, q, p, v)
  {
    hide Change;
    var w := if |p| == 1 then v else M(Put(item[p[0]].members, p[1..], v));
    assert Put(item, p, v) == item[p[0] := w];
    if GovernAt(t, r, item, q).Fired? {
      KeepsOthers(t, r, item, q, p[0]);
      Commute(t, r, item, q, p[0], w);
    }
  }

  lemma Commute(t: Tools, r: Rule, item: Item, q: Path, name: Name, w: Attr)
    requires q[0] != name && GovernAt(t, r, item, q).Fired?
    ensures GovernAt(t, r, item[name := w], q) == Fired(GovernAt(t, r, item, q).item[name := w])
  {
    hide Change;
    assert item[name := w] - {q[0]} == (item - {q[0]})[name := w];
  }

  /** A rule for a path through a map. */
  lemma GovernBelow(t: Tools, r: Rule, item: Item, q: Path)
    requires |q| > 1 && q[0] in item && item[q[0]].M?
    ensures GovernAt(t, r, item, q) ==
            match GovernAt(t, r, item[q[0]].members, q[1..])
            case Fired(inner) => Fired(item[q[0] := M(inner)])
            case other => other
  {
    hide Change;
  }

  lemma PutBelow(item: Item, p: Path, v: Attr)
    requires |p| > 1 && p[0] in item && item[p[0]].M? && AtPath(item[p[0]].members, p[1..]).Some?
    ensures AtPath(item, p) == AtPath(item[p[0]].members, p[1..])
    ensures Put(item, p, v) == item[p[0] := M(Put(item[p[0]].members, p[1..], v))]
  {
  }

  lemma BesideBelow(t: Tools, r: Rule, item: Item, q: Path, p: Path, v: Attr)
    requires |p| > 1 && |q| > 1 && q[0] == p[0] && p[0] in item && item[p[0]].M?
    requires AtPath(item[p[0]].members, p[1..]).Some? && Beside(t, r, item[p[0]].members, q[1..], p[1..], v)
    ensures AtPath(item, p).Some? && Beside(t, r, item, q, p, v)
  {
    hide GovernAt, Put, AtPath;
    var inner := item[p[0]].members;
    PutBelow(item, p, v);
    GovernBelow(t, r, item, q);
    GovernBelow(t, r, Put(item, p, v), q);
    var done := GovernAt(t, r, inner, q[1..]);
    if done.Fired? {
      PutBelow(item[p[0] := M(done.item)], p, v);
    }
  }

  /** A rule for another path does not look at a single attribute, and leaves it. */
  lemma {:induction false} RuleBeside(t: Tools, r: Rule, item: Item, q: Path, p: Path, v: Attr)
    requires q != p && AtPath(item, p).Some? && Single(AtPath(item, p).value) && Single(v)
    ensures Beside(t, r, item, q, p, v)
    decreases |p|
  {
    hide Change, Beside;
    if p[0] != q[0] {
      BesideOther(t, r, item, q, p, v);
    } else if |p| == 1 {
      BesideEnd(t, r, item, q, p, v);
    } else if |q| == 1 {
      BesideAbove(t, r, item, q, p, v);
    } else {
      assert p == [p[0]] + p[1..] && q == [q[0]] + q[1..];
      RuleBeside(t, r, item[p[0]].members, q[1..], p[1..], v);
      BesideBelow(t, r, item, q, p, v);
    }
  }

  lemma BesideEnd(t: Tools, r: Rule, item: Item, q: Path, p: Path, v: Attr)
    requires q != p && |p| == 1 && q[0] == p[0] && AtPath(item, p).Some?
    requires Single(AtPath(item, p).value) && Single(v)
    ensures Beside(t, r, item, q, p, v)
  {
    hide Change;
    if |q| == 1 {
      ShortPaths(p, q);
    }
  }

  lemma ShortPaths(p: Path, q: Path)
    requires |p| == 1 && |q| == 1 && p[0] == q[0]
    ensures p == q
  {
  }

  lemma BesideAbove(t: Tools, r: Rule, item: Item, q: Path, p: Path, v: Attr)
    requires |q| == 1 && |p| > 1 && q[0] == p[0] && AtPath(item, p).Some?
    ensures Beside(t, r, item, q, p, v)
  {
    ContainerFails(t, r, item[p[0]]);
    ContainerFails(t, r, Put(item, p, v)[p[0]]);
    hide Change;
  }

  lemma ContainerFails(t: Tools, r: Rule, v: Attr)
    requires v.M?
    ensures Change(t, r, v).None?
  {
  }

  /** No rule puts an attribute where there was none. */
  lemma {:induction false} RuleAddsNothing(t: Tools, r: Rule, item: Item, q: Path, p: Path)
    requires AtPath(item, p).None? && GovernAt(t, r, item, q).Fired?
    ensures AtPath(GovernAt(t, r, item, q).item, p).None?
    decreases |p|
  {
    hide Change;
    if p[0] == q[0] && |p| > 1 && |q| > 1 {
      RuleAddsNothing(t, r, item[p[0]].members, q[1..], p[1..]);
    } else if p[0] == q[0] && |p| > 1 {
      RewrittenIsTextual(t, r, item[q[0]]);
    }
  }

  lemma RewrittenIsTextual(t: Tools, r: Rule, v: Attr)
    ensures Change(t, r, v).Some? && Change(t, r, v).value.Some? ==> Textual(Change(t, r, v).value.value)
  {
  }

  // ---------------------------------------------------------- a whole policy

  predicate OtherPaths(rules: seq<Rule>, p: Path) {
    forall i | 0 <= i < |rules| :: rules[i].Parts() != p
  }

  /** The rules for other paths do the same whatever the single attribute is. */
  lemma {:induction false} OthersBeside(t: Tools, rules: seq<Rule>, item: Item, p: Path, v: Attr)
    requires OtherPaths(rules, p) && AtPath(item, p).Some? && Single(AtPath(item, p).value) && Single(v)
    ensures var out := Govern(t, rules, item);
            if out.None? then Govern(t, rules, Put(item, p, v)).None?
            else
              && AtPath(out.value.0, p) == AtPath(item, p)
              && Govern(t, rules, Put(item, p, v)) == Some((Put(out.value.0, p, v), out.value.1))
    decreases |rules|
  {
    hide GovernAt, Put, AtPath, SplitDots;
    if rules != [] {
      var r := rules[0];
      RuleBeside(t, r, item, r.Parts(), p, v);
      assert OtherPaths(rules[1..], p);
      var next := Next(t, r, item);
      OthersBeside(t, rules[1..], next, p, v);
    }
  }

  lemma {:induction false} OthersAddNothing(t: Tools, rules: seq<Rule>, item: Item, p: Path)
    requires AtPath(item, p).None? && Govern(t, rules, item).Some?
    ensures AtPath(Govern(t, rules, item).value.0, p).None?
    decreases |rules|
  {
    hide GovernAt, AtPath, SplitDots;
    if rules != [] {
      var r := rules[0];
      if GovernAt(t, r, item, r.Parts()).Fired? {
        RuleAddsNothing(t, r, item, r.Parts(), p);
      }
      OthersAddNothing(t, rules[1..], Next(t, r, item), p);
    }
  }

  /** A rule, and then rules for other paths. */
  lemma RuleFirst(t: Tools, r: Rule, rest: seq<Rule>, item: Item)
    requires OtherPaths(rest, r.Parts()) && AtPath(item, r.Parts()).Some? && Single(AtPath(item, r.Parts()).value)
    requires Govern(t, [r] + rest, item).Some?
    ensures var change := Change(t, r, AtPath(item, r.Parts()).value);
            && change.Some?
            && AtPath(Govern(t, [r] + rest, item).value.0, r.Parts()) == change.value
            && Govern(t, [r] + rest, item) == Ahead([r.key.id], Govern(t, rest, After(item, r.Parts(), change.value)))
  {
    hide GovernAt, Govern, SplitDots, Change;
    var p := r.Parts();
    var change := Change(t, r, AtPath(item, p).value);
    First(t, r, rest, item);
    RuleAt(t, r, item, p);
    var next := After(item, p, change.value);
    if change.value.None? {
      DropAt(item, p);
      OthersAddNothing(t, rest, next, p);
    } else {
      PutAt(item, p, change.value.value, change.value.value);
      RewrittenIsTextual(t, r, AtPath(item, p).value);
      OthersBeside(t, rest, next, p, change.value.value);
    }
  }

  /** The item with the attribute at the path changed or removed. */
  function After(item: Item, p: Path, change: Option<Attr>): Item
    requires AtPath(item, p).Some?
  {
    if change.None? then Drop(item, p) else Put(item, p, change.value)
  }

  /** Any rule of a policy may as well come first. */
  lemma BroughtForward(t: Tools, rules: seq<Rule>, i: nat, item: Item)
    requires DifferentPaths(rules) && i < |rules|
    ensures OtherPaths(rules[..i] + rules[i + 1..], rules[i].Parts())
    ensures Same(Govern(t, rules, item), Govern(t, [rules[i]] + (rules[..i] + rules[i + 1..]), item))
  {
    hide Govern, SplitDots, GovernAt;
    var r, before, after := rules[i], rules[..i], rules[i + 1..];
    var others: seq<Rule> := before + after;
    forall k | 0 <= k < |others| ensures others[k].Parts() != r.Parts() {
      var n := if k < i then k else k + 1;
      assert others[k] == rules[n];
      if rules[n].Parts() == r.Parts() {
        SplitDotsInjective(rules[n].key.path, r.key.path);
      }
    }
    forall b | b in before ensures r.Parts() != b.Parts() {
      var k :| 0 <= k < |before| && before[k] == b;
      assert others[k] == b;
    }
    MoveToFront(t, before, r, after, item);
    assert before + [r] + after == rules && [r] + before + after == [r] + (before + after);
  }

  /** What a policy leaves at the path of each of its rules, whatever the others do. */
  lemma PolicyLeaves(t: Tools, rules: seq<Rule>, i: nat, item: Item)
    requires DifferentPaths(rules) && i < |rules| && Govern(t, rules, item).Some?
    requires AtPath(item, rules[i].Parts()).Some? && Single(AtPath(item, rules[i].Parts()).value)
    ensures Leaves(t, rules[i], AtPath(item, rules[i].Parts()).value,
                   AtPath(Govern(t, rules, item).value.0, rules[i].Parts()))
  {
    hide Govern, SplitDots, Leaves;
    BroughtForward(t, rules, i, item);
    RuleFirst(t, rules[i], rules[..i] + rules[i + 1..], item);
    ChangeLeaves(t, rules[i], AtPath(item, rules[i].Parts()).value);
  }

  /** What a governed item tells of a value: two items that differ in the value at the path
      of a rule govern to the same item exactly if the action does not tell the two values
      apart, and the same rules fire. */
  lemma TellsOnly(t: Tools, rules: seq<Rule>, i: nat, x: Item, w: Attr)
    requires DifferentPaths(rules) && i < |rules| && Govern(t, rules, x).Some?
    requires AtPath(x, rules[i].Parts()).Some? && SameKind(AtPath(x, rules[i].Parts()).value, w)
    ensures var out, other := Govern(t, rules, x), Govern(t, rules, Put(x, rules[i].Parts(), w));
            && other.Some? && multiset(out.value.1) == multiset(other.value.1)
            && (out.value.0 == other.value.0 <==> Alike(t, rules[i], AtPath(x, rules[i].Parts()).value, w))
  {
    var r, rest := rules[i], rules[..i] + rules[i + 1..];
    var p, v := r.Parts(), AtPath(x, r.Parts()).value;
    var y := Put(x, p, w);
    hide Govern, SplitDots, GovernAt, Change, Alike, After;
    BroughtForward(t, rules, i, x);
    BroughtForward(t, rules, i, y);
    RuleFirst(t, r, rest, x);
    ChangeAlike(t, r, v, w);
    RuleAlone(t, r, rest, x, w);
    RestAlike(t, r, rest, x, Change(t, r, v).value, Change(t, r, w).value);
  }

  lemma RuleAlone(t: Tools, r: Rule, rest: seq<Rule>, x: Item, w: Attr)
    requires AtPath(x, r.Parts()).Some? && Change(t, r, w).Some?
    ensures Govern(t, [r] + rest, Put(x, r.Parts(), w)) ==
            Ahead([r.key.id], Govern(t, rest, After(x, r.Parts(), Change(t, r, w).value)))
  {
    hide Govern, SplitDots, GovernAt, Change;
    var p, change := r.Parts(), Change(t, r, w).value;
    PutAt(x, p, w, if change.Some? then change.value else w);
    First(t, r, rest, Put(x, p, w));
    RuleAt(t, r, Put(x, p, w), p);
  }

  lemma RestAlike(t: Tools, r: Rule, rest: seq<Rule>, x: Item, u: Option<Attr>, v: Option<Attr>)
    requires OtherPaths(rest, r.Parts()) && AtPath(x, r.Parts()).Some? && (u.None? <==> v.None?)
    requires u.Some? ==> Textual(u.value) && Textual(v.value)
    ensures var a, b := Govern(t, rest, After(x, r.Parts(), u)), Govern(t, rest, After(x, r.Parts(), v));
            (a.Some? <==> b.Some?) && (a.Some? ==> a.value.1 == b.value.1 && (a.value.0 == b.value.0 <==> u == v))
  {
    hide Govern, SplitDots;
    var p := r.Parts();
    if u.Some? {
      PutAt(x, p, u.value, v.value);
      PutAt(x, p, v.value, u.value);
      OthersBeside(t, rest, Put(x, p, u.value), p, v.value);
      var a := Govern(t, rest, Put(x, p, u.value));
      if a.Some? {
        PutAt(a.value.0, p, v.value, u.value);
      }
    }
  }

  /** Hashes and pseudonyms keep different values apart, if digests do. */
  lemma StaysApart(t: Tools, rules: seq<Rule>, i: nat, x: Item, w: Attr)
    requires DifferentPaths(rules) && i < |rules| && Govern(t, rules, x).Some?
    requires AtPath(x, rules[i].Parts()).Some? && SameKind(AtPath(x, rules[i].Parts()).value, w)
    requires rules[i].action.Hash? || rules[i].action.Pseudonymize?
    requires forall a, b :: t.hash(a) == t.hash(b) ==> a == b
    requires forall key, a, b :: t.mac(key, a) == t.mac(key, b) ==> a == b
    requires AtPath(x, rules[i].Parts()).value != w
    ensures var other := Govern(t, rules, Put(x, rules[i].Parts(), w));
            other.Some? && other.value.0 != Govern(t, rules, x).value.0
  {
    hide Govern, SplitDots;
    TellsOnly(t, rules, i, x, w);
    NulFields(t, rules[i]);
    PolicyFails(t, rules, x);
    assert !UnfitAt(t, rules[i], x);
  }

  // ------------------------------------------------------- which rules fire

  predicate DifferentIds(rules: seq<Rule>) {
    forall i, j | 0 <= i < j < |rules| :: rules[i].key.id != rules[j].key.id
  }

  /** A rule of a policy fires exactly if the item has an attribute at its path, and once. */
  lemma FiresOnce(t: Tools, rules: seq<Rule>, i: nat, item: Item)
    requires DifferentPaths(rules) && DifferentIds(rules) && i < |rules| && Govern(t, rules, item).Some?
    ensures multiset(Govern(t, rules, item).value.1)[rules[i].key.id]
            == if AtPath(item, rules[i].Parts()).Some? then 1 else 0
  {
    hide Govern, SplitDots, GovernAt, AtPath;
    var r, rest := rules[i], rules[..i] + rules[i + 1..];
    BroughtForward(t, rules, i, item);
    First(t, r, rest, item);
    FiresExactly(t, r, item, r.Parts());
    var next := Next(t, r, item);
    FiredAreRules(t, rest, next);
    var others := Govern(t, rest, next).value.1;
    forall k | 0 <= k < |rest| ensures rest[k].key.id != r.key.id {
      assert rest[k] == rules[if k < i then k else k + 1];
    }
    assert r.key.id !in others && r.key.id !in multiset(others);
  }

  // ------------------------------------------------------- when a policy fails

  /** Whether a rule fails does not depend on a rule for another path that has not. */
  lemma {:induction false} UnfitBeside(t: Tools, a: Rule, b: Rule, item: Item, q: Path, p: Path)
    requires q != p && GovernAt(t, a, item, q).Fired?
    ensures GovernAt(t, b, item, p) == Failed <==> GovernAt(t, b, GovernAt(t, a, item, q).item, p) == Failed
    decreases |p|
  {
    hide Change;
    if p[0] == q[0] && |p| > 1 && |q| > 1 {
      assert p == [p[0]] + p[1..] && q == [q[0]] + q[1..];
      UnfitBeside(t, a, b, item[p[0]].members, q[1..], p[1..]);
    } else if p[0] == q[0] && |p| > 1 {
      if item[q[0]].M? {
        ContainerFails(t, a, item[q[0]]);
      }
      RewrittenIsTextual(t, a, item[q[0]]);
    } else if p[0] == q[0] && |q| > 1 {
      ContainerFails(t, b, item[p[0]]);
      ContainerFails(t, b, GovernAt(t, a, item, q).item[p[0]]);
    }
  }

  /** Some rule meets an attribute that it fails on. */
  ghost predicate SomeUnfit(t: Tools, rules: seq<Rule>, item: Item) {
    exists i | 0 <= i < |rules| :: UnfitAt(t, rules[i], item)
  }

  ghost predicate UnfitAt(t: Tools, r: Rule, item: Item) {
    var v := AtPath(item, r.Parts());
    v.Some? && Unfit(t, r, v.value)
  }

  lemma FailsAlone(t: Tools, r: Rule, item: Item)
    ensures GovernAt(t, r, item, r.Parts()) == Failed <==> UnfitAt(t, r, item)
  {
    hide Change, Unfit, SplitDots;
    FiresExactly(t, r, item, r.Parts());
    if AtPath(item, r.Parts()).Some? {
      ChangeFails(t, r, AtPath(item, r.Parts()).value);
    }
  }

  lemma SameFailure(t: Tools, r: Rule, b: Rule, item: Item)
    requires r.key.path != b.key.path && GovernAt(t, r, item, r.Parts()) != Failed
    ensures UnfitAt(t, b, Next(t, r, item)) <==> UnfitAt(t, b, item)
  {
    hide GovernAt, UnfitAt, SplitDots;
    if r.Parts() == b.Parts() {
      SplitDotsInjective(r.key.path, b.key.path);
    }
    FailsAlone(t, b, item);
    FailsAlone(t, b, Next(t, r, item));
    if GovernAt(t, r, item, r.Parts()).Fired? {
      UnfitBeside(t, r, b, item, r.Parts(), b.Parts());
    }
  }

  lemma OnlyRest(t: Tools, r: Rule, rest: seq<Rule>, item: Item, next: Item)
    requires !UnfitAt(t, r, item)
    requires forall i | 0 <= i < |rest| :: UnfitAt(t, rest[i], next) <==> UnfitAt(t, rest[i], item)
    ensures SomeUnfit(t, rest, next) <==> SomeUnfit(t, [r] + rest, item)
  {
    hide UnfitAt;
    var rules := [r] + rest;
    if SomeUnfit(t, rest, next) {
      var i :| 0 <= i < |rest| && UnfitAt(t, rest[i], next);
      assert UnfitAt(t, rules[i + 1], item);
    }
    if SomeUnfit(t, rules, item) {
      var i :| 0 <= i < |rules| && UnfitAt(t, rules[i], item);
      assert rules[i] == rest[i - 1];
    }
  }

  /** A policy fails on an item exactly if one of its rules does, on the item as it was
      read. */
  lemma {:induction false} PolicyFails(t: Tools, rules: seq<Rule>, item: Item)
    requires DifferentPaths(rules)
    ensures Govern(t, rules, item).None? <==> SomeUnfit(t, rules, item)
    decreases |rules|
  {
    hide GovernAt, UnfitAt, SplitDots;
    if rules != [] {
      var r, rest := rules[0], rules[1..];
      FailsAlone(t, r, item);
      if GovernAt(t, r, item, r.Parts()) != Failed {
        var next := Next(t, r, item);
        PolicyFails(t, rest, next);
        forall i | 0 <= i < |rest| ensures UnfitAt(t, rest[i], next) <==> UnfitAt(t, rest[i], item) {
          SameFailure(t, r, rest[i], item);
        }
        OnlyRest(t, r, rest, item, next);
        assert rules == [r] + rest;
      } else {
        assert UnfitAt(t, rules[0], item);
      }
    }
  }
}
