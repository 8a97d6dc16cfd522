/** The copy on write that governs items in memory (governItemCompiled in
    internal/services/dynamodb/item.go): maps are references, nested maps are copied
    on the way to an edit, and the source item stays as it is. */
module ItemCopy {
  import opened AttributeCodec
  import opened ByteStrings
  import opened ItemGovernance
  import opened Wrappers

  // ------------------------------------------------------------ items in memory

  /** A map of attributes as the SDK holds it: nested maps are references, and
      the same map may be reached in several ways. */
  class AttrMap {
    var entries: map<Name, Value>

    constructor (entries: map<Name, Value>)
      ensures this.entries == entries
    {
      this.entries := entries;
    }
  }

  /** A list is plain: rules do not look inside lists. */
  datatype Value = Plain(attr: Attr) | Nested(members: AttrMap)

  /** Everything that can be reached is in `cells`, and no map contains itself. */
  ghost predicate Within(m: AttrMap, cells: set<AttrMap>)
    reads cells
    decreases cells, 0
  {
    m in cells && AllHold(m, cells - {m})
  }

  /** Everything below the map is in `cells`. */
  ghost predicate AllHold(m: AttrMap, cells: set<AttrMap>)
    reads m, cells
    decreases cells, 2
  {
    forall k | k in m.entries :: Holds(m.entries[k], cells)
  }

  ghost predicate Holds(v: Value, cells: set<AttrMap>)
    reads cells
    decreases cells, 1
  {
    match v
    case Plain(a) => !a.M?
    case Nested(m) => Within(m, cells)
  }

  /** The item that a map stands for. */
  ghost function Tree(m: AttrMap, cells: set<AttrMap>): Item
    requires Within(m, cells)
    reads cells
    decreases cells, 0
  {
    Contents(m, cells - {m})
  }

  ghost function Contents(m: AttrMap, cells: set<AttrMap>): Item
    requires AllHold(m, cells)
    reads m, cells
    decreases cells, 2
  {
    map k | k in m.entries :: Reading(m.entries[k], cells)
  }

  ghost function Reading(v: Value, cells: set<AttrMap>): Attr
    requires Holds(v, cells)
    reads cells
    decreases cells, 1
  {
    match v
    case Plain(a) => a
    case Nested(m) => M(Tree(m, cells))
  }

  lemma {:induction false} HoldsMore(v: Value, a: set<AttrMap>, b: set<AttrMap>)
    requires Holds(v, a) && a <= b
    ensures Holds(v, b) && Reading(v, b) == Reading(v, a)
    decreases a, 1
  {
    match v
    case Plain(_) =>
    case Nested(m) => AllHoldMore(m, a - {m}, b - {m});
  }

  /** More maps around change nothing. */
  lemma {:induction false} AllHoldMore(m: AttrMap, a: set<AttrMap>, b: set<AttrMap>)
    requires AllHold(m, a) && a <= b
    ensures AllHold(m, b) && Contents(m, b) == Contents(m, a)
    decreases a, 2
  {
    forall k | k in m.entries ensures Holds(m.entries[k], b) && Reading(m.entries[k], b) == Reading(m.entries[k], a) {
      HoldsMore(m.entries[k], a, b);
    }
  }

  // -------------------------------------------------------- the way to a change

  /** The copied maps above the one that is edited, from the inside out. */
  datatype Way = Root | Below(parent: AttrMap, name: Name, up: Way) {
    ghost function Cells(): set<AttrMap> {
      match this
      case Root => {}
      case Below(parent, _, up) => {parent} + up.Cells()
    }

    /** `hole` hangs here; whatever else hangs on the way is in `rest`. */
    ghost predicate Leads(hole: AttrMap, rest: set<AttrMap>)
      reads Cells(), rest
    {
      match this
      case Root => true
      case Below(parent, name, up) =>
        && parent !in up.Cells() && parent !in rest
        && name in parent.entries && parent.entries[name] == Nested(hole)
        && (forall k | k in parent.entries && k != name :: Holds(parent.entries[k], rest))
        && up.Leads(parent, rest)
    }

    /** The item at the root if `inner` is in the hole. */
    ghost function Plug(hole: AttrMap, rest: set<AttrMap>, inner: Item): Item
      requires Leads(hole, rest)
      reads Cells(), rest
    {
      match this
      case Root => inner
      case Below(parent, name, up) => up.Plug(parent, rest, Others(parent, name, rest)[name := M(inner)])
    }

    ghost function Top(hole: AttrMap): AttrMap {
      match this
      case Root => hole
      case Below(parent, _, up) => up.Top(parent)
    }
  }

  ghost function Others(parent: AttrMap, name: Name, rest: set<AttrMap>): Item
    requires forall k | k in parent.entries && k != name :: Holds(parent.entries[k], rest)
    reads parent, rest
  {
    map k | k in parent.entries && k != name :: Reading(parent.entries[k], rest)
  }

  /** What the root stands for is what the hole stands for, plugged in. */
  lemma {:induction false} TreeOnWay(way: Way, hole: AttrMap, rest: set<AttrMap>, cells: set<AttrMap>)
    requires way.Leads(hole, rest) && AllHold(hole, cells) && rest <= cells
    requires hole !in cells && hole !in way.Cells() && way.Cells() !! cells
    ensures Within(way.Top(hole), cells + {hole} + way.Cells())
    ensures Tree(way.Top(hole), cells + {hole} + way.Cells()) == way.Plug(hole, rest, Contents(hole, cells))
    decreases way
  {
    match way
    case Root =>
      assert (cells + {hole} + way.Cells()) - {hole} == cells;
    case Below(parent, name, up) =>
      var all := cells + {hole};
      assert all - {hole} == cells;
      assert Within(hole, all) && Tree(hole, all) == Contents(hole, cells);
      assert Reading(parent.entries[name], all) == M(Contents(hole, cells));
      forall k | k in parent.entries && k != name
        ensures Holds(parent.entries[k], all) && Reading(parent.entries[k], all) == Reading(parent.entries[k], rest)
      {
        HoldsMore(parent.entries[k], rest, all);
      }
      assert Contents(parent, all) == Others(parent, name, rest)[name := M(Contents(hole, cells))];
      TreeOnWay(up, parent, rest, all);
      assert all + {parent} + up.Cells() == cells + {hole} + way.Cells();
  }

  // ------------------------------------------------------------- copy on write

  /** `hole` is a private map, reached from the root along `way` and nowhere else. */
  ghost predicate Open(way: Way, hole: AttrMap, rest: set<AttrMap>)
    reads way.Cells(), rest, hole
  {
    && hole !in rest && hole !in way.Cells() && way.Cells() !! rest
    && way.Leads(hole, rest) && AllHold(hole, rest)
  }

  ghost function AtRoot(way: Way, hole: AttrMap, rest: set<AttrMap>, below: Outcome): Outcome
    requires way.Leads(hole, rest)
    reads way.Cells(), rest
  {
    match below
    case Fired(inner) => Fired(way.Plug(hole, rest, inner))
    case other => other
  }

  /** With `inner` in the hole the root stands for `item`, and what the rule does
      to `inner` decides what it does to the item. */
  ghost predicate Lifts(t: Tools, r: Rule, item: Item, path: Path, way: Way, hole: AttrMap, rest: set<AttrMap>,
                        inner: Item, i: nat)
    requires way.Leads(hole, rest) && i < |path|
    reads way.Cells(), rest
  {
    && way.Plug(hole, rest, inner) == item
    && GovernAt(t, r, item, path) == AtRoot(way, hole, rest, GovernAt(t, r, inner, path[i..]))
  }

  lemma StepDown(t: Tools, r: Rule, item: Item, path: Path, up: Way, parent: AttrMap, hole: AttrMap, rest: set<AttrMap>,
                 inner: Item, sub: Item, i: nat)
    requires i < |path| - 1
    requires up.Leads(parent, rest) && Lifts(t, r, item, path, up, parent, rest, inner, i)
    requires Below(parent, path[i], up).Leads(hole, rest)
    requires path[i] in inner && inner[path[i]] == M(sub) && Others(parent, path[i], rest) == inner - {path[i]}
    ensures Lifts(t, r, item, path, Below(parent, path[i], up), hole, rest, sub, i + 1)
  {
    hide Change;
    assert path[i..][1..] == path[i + 1..];
    var way := Below(parent, path[i], up);
    assert Others(parent, path[i], rest)[path[i] := M(sub)] == inner;
    match GovernAt(t, r, sub, path[i + 1..])
    case Fired(edited) => assert Others(parent, path[i], rest)[path[i] := M(edited)] == inner[path[i] := M(edited)];
    case _ =>
  }

  /** Replaces a nested map by a copy of it. */
  method Link(container: AttrMap, name: Name, cloned: AttrMap, ghost way: Way, ghost rest: set<AttrMap>)
    requires Open(way, container, rest) && name in container.entries && container.entries[name].Nested?
    requires cloned.entries == container.entries[name].members.entries
    requires cloned != container && cloned !in rest && cloned !in way.Cells()
    modifies container
    ensures Open(Below(container, name, way), cloned, rest) && way.Leads(container, rest)
    ensures var inner := old(Contents(container, rest));
            name in inner && inner[name] == M(Contents(cloned, rest)) && Others(container, name, rest) == inner - {name}
  {
    var member := container.entries[name].members;
    assert Holds(container.entries[name], rest) && Within(member, rest);
    AllHoldMore(member, rest - {member}, rest);
    ghost var sub := Contents(cloned, rest);
    assert sub == Contents(member, rest);
    assert Reading(container.entries[name], rest) == M(sub);
    container.entries := container.entries[name := Nested(cloned)];
    assert Contents(cloned, rest) == sub;
  }

  /** Copies the maps along the path; none of the maps below the root changes.
      Without `found` a map on the path is missing. */
  method CopyDown(ghost t: Tools, ghost r: Rule, root: AttrMap, path: Path, ghost rest: set<AttrMap>)
    returns (found: bool, container: AttrMap, ghost way: Way, ghost above: set<AttrMap>)
    requires AllHold(root, rest) && root !in rest
    modifies root
    ensures Open(way, container, rest) && way.Top(container) == root
    ensures above == way.Cells() && fresh(above + {container} - {root})
    ensures way.Plug(container, rest, Contents(container, rest)) == old(Contents(root, rest))
    ensures found ==> Lifts(t, r, old(Contents(root, rest)), path, way, container, rest, Contents(container, rest),
            |path| - 1)
    ensures !found ==> GovernAt(t, r, old(Contents(root, rest)), path) == Missed
  {
    hide Lifts, GovernAt, Holds, Within, AllHold, Contents, Tree;
    ghost var before := Contents(root, rest);
    ghost var inner := before;
    var i := 0;
    container, way := root, Root;
    above := {};
    AtTop(t, r, before, path, root, rest);
    while i < |path| - 1
      invariant 0 <= i < |path|
      invariant Open(way, container, rest) && way.Top(container) == root
      invariant above == way.Cells() && fresh(above + {container} - {root})
      invariant inner == Contents(container, rest)
      invariant Lifts(t, r, before, path, way, container, rest, inner, i)
    {
      if path[i] !in container.entries || !container.entries[path[i]].Nested? {
        NothingThere(t, r, before, path, way, container, rest, inner, i);
        return false, container, way, above;
      }
      var cloned := new AttrMap(container.entries[path[i]].members.entries);
      Link(container, path[i], cloned, way, rest);
      StepDown(t, r, before, path, way, container, cloned, rest, inner, Contents(cloned, rest), i);
      way, above := Below(container, path[i], way), above + {container};
      container, i := cloned, i + 1;
      inner := Contents(container, rest);
    }
    PluggedIn(t, r, before, path, way, container, rest, inner, i);
    found := true;
  }

  lemma AtTop(t: Tools, r: Rule, item: Item, path: Path, root: AttrMap, rest: set<AttrMap>)
    requires AllHold(root, rest) && root !in rest
    ensures Open(Root, root, rest) && Lifts(t, r, item, path, Root, root, rest, item, 0)
  {
    assert path[0..] == path;
  }

  lemma PluggedIn(t: Tools, r: Rule, item: Item, path: Path, way: Way, hole: AttrMap, rest: set<AttrMap>, inner: Item,
                  i: nat)
    requires way.Leads(hole, rest) && i < |path| && Lifts(t, r, item, path, way, hole, rest, inner, i)
    ensures way.Plug(hole, rest, inner) == item
  {
  }

  lemma NothingThere(t: Tools, r: Rule, item: Item, path: Path, way: Way, hole: AttrMap, rest: set<AttrMap>,
                     inner: Item, i: nat)
    requires way.Leads(hole, rest) && AllHold(hole, rest) && inner == Contents(hole, rest)
    requires i < |path| - 1 && Lifts(t, r, item, path, way, hole, rest, inner, i)
    requires path[i] !in hole.entries || !hole.entries[path[i]].Nested?
    ensures GovernAt(t, r, item, path) == Missed && way.Plug(hole, rest, inner) == item
  {
    if path[i] in hole.entries {
      assert Holds(hole.entries[path[i]], rest);
    }
  }

  /** The attribute at the end of the path; None stands for an error. */
  method Edit(t: Tools, r: Rule, container: AttrMap, name: Name, ghost rest: set<AttrMap>)
    returns (outcome: Option<bool>)
    requires AllHold(container, rest) && container !in rest
    modifies container
    ensures AllHold(container, rest)
    ensures GovernAt(t, r, old(Contents(container, rest)), [name]) ==
            match outcome
            case None => Failed
            case Some(false) => Missed
            case Some(true) => Fired(Contents(container, rest))
    ensures outcome == Some(false) ==> Contents(container, rest) == old(Contents(container, rest))
  {
    hide Apply, ScalarBytes, Within, Tree;
    if name !in container.entries {
      return Some(false);
    }
    var value := container.entries[name];
    assert Holds(value, rest);
    var source := if value.Plain? then ScalarBytes(value.attr) else None;
    if source.None? {
      NoScalar(t, r, value, rest);
      return None;
    }
    var result := Apply(t, r, source.value);
    if result.None? {
      return None;
    }
    if result.value.Omitted? {
      container.entries := container.entries - {name};
    } else if value.attr.S? || value.attr.B? {
      var text := result.value.text;
      container.entries := container.entries[name := Plain(if value.attr.S? then S(text) else B(text))];
    } else {
      return None;
    }
    outcome := Some(true);
  }

  lemma NoScalar(t: Tools, r: Rule, v: Value, rest: set<AttrMap>)
    requires Holds(v, rest) && (v.Nested? || ScalarBytes(v.attr).None?)
    ensures Change(t, r, Reading(v, rest)).None?
  {
  }

  /** One rule applied to a private copy: nothing but `root` and new maps changes.
      None stands for an error, and otherwise the result says whether the rule fired. */
  method ApplyRule(t: Tools, r: Rule, root: AttrMap, ghost rest: set<AttrMap>)
    returns (outcome: Option<bool>, ghost now: set<AttrMap>)
    requires AllHold(root, rest) && root !in rest
    modifies root
    ensures AllHold(root, now) && root !in now && fresh(now - rest)
    ensures GovernAt(t, r, old(Contents(root, rest)), r.Parts()) ==
            match outcome
            case None => Failed
            case Some(false) => Missed
            case Some(true) => Fired(Contents(root, now))
    ensures outcome == Some(false) ==> Contents(root, now) == old(Contents(root, rest))
  {
    hide GovernAt, Holds, AllHold, Contents, Within, Tree, SplitDots;
    var path := r.Parts();
    var found, container, way, above := CopyDown(t, r, root, path, rest);
    now := rest + {container} + above - {root};
    outcome := Some(false);
    if found {
      assert path[|path| - 1..] == [path[|path| - 1]];
      outcome := Edit(t, r, container, path[|path| - 1], rest);
    }
    Closed(way, container, rest);
  }

  /** The maps below the root after the last one was edited. */
  lemma Closed(way: Way, hole: AttrMap, rest: set<AttrMap>)
    requires Open(way, hole, rest) && way.Top(hole) !in rest
    ensures var root := way.Top(hole);
            var now := rest + {hole} + way.Cells() - {root};
            AllHold(root, now) && Contents(root, now) == way.Plug(hole, rest, Contents(hole, rest))
  {
    TreeOnWay(way, hole, rest, rest);
  }

  /** governItemCompiled: the rules in their order, applied to a copy. Nothing that
      existed before changes; None stands for an error. */
  method GovernItem(t: Tools, rules: seq<Rule>, item: AttrMap, ghost cells: set<AttrMap>)
    returns (out: Option<AttrMap>, fired: seq<Bytes>, ghost made: set<AttrMap>)
    requires Within(item, cells)
    ensures Within(item, cells) && Tree(item, cells) == old(Tree(item, cells))
    ensures match out
            case None => Govern(t, rules, Tree(item, cells)).None?
            case Some(copy) =>
              && fresh(copy) && Within(copy, made)
              && Govern(t, rules, Tree(item, cells)) == Some((Tree(copy, made), fired))
  {
    hide GovernAt, Holds, AllHold, Contents;
    ghost var before := Tree(item, cells);
    ghost var rest := cells - {item};
    var copy := new AttrMap(item.entries);
    SameEntries(item, copy, rest);
    fired := [];
    NothingFired(Govern(t, rules, before));
    assert rules[0..] == rules;
    for i := 0 to |rules|
      invariant fresh(copy) && copy !in rest && AllHold(copy, rest)
      invariant Govern(t, rules, before) == Ahead(fired, Govern(t, rules[i..], Contents(copy, rest)))
    {
      NextRule(t, rules, i, Contents(copy, rest), fired);
      var outcome;
      outcome, rest := ApplyRule(t, rules[i], copy, rest);
      if outcome.None? {
        return None, [], {};
      }
      if outcome.value {
        fired := fired + [rules[i].key.id];
      }
    }
    out, made := Some(copy), rest + {copy};
    assert made - {copy} == rest && fired + [] == fired;
  }

  lemma NothingFired(result: Option<(Item, seq<Bytes>)>)
    ensures Ahead([], result) == result
  {
    if result.Some? {
      assert [] + result.value.1 == result.value.1;
    }
  }

  lemma NextRule(t: Tools, rules: seq<Rule>, i: nat, item: Item, fired: seq<Bytes>)
    requires i < |rules|
    ensures Ahead(fired, Govern(t, rules[i..], item)) ==
            match GovernAt(t, rules[i], item, rules[i].Parts())
            case Failed => None
            case Missed => Ahead(fired, Govern(t, rules[i + 1..], item))
            case Fired(next) => Ahead(fired + [rules[i].key.id], Govern(t, rules[i + 1..], next))
  {
    hide GovernAt;
    assert rules[i..][1..] == rules[i + 1..];
    match GovernAt(t, rules[i], item, rules[i].Parts())
    case Fired(next) =>
      var rest := Govern(t, rules[i + 1..], next);
      if rest.Some? {
        assert fired + ([rules[i].key.id] + rest.value.1) == (fired + [rules[i].key.id]) + rest.value.1;
      }
    case _ =>
  }

  lemma SameEntries(m: AttrMap, copy: AttrMap, rest: set<AttrMap>)
    requires AllHold(m, rest) && copy.entries == m.entries
    ensures AllHold(copy, rest) && Contents(copy, rest) == Contents(m, rest)
  {
  }
}
