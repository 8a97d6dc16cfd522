/** The cycle check over required dependencies (validateDependencyGraph in
    internal/app/plan.go). */
module DependencyGraph {
  import opened ByteStrings
  import opened Identities
  import opened Sorting
  import opened Wrappers

  type Node = Bytes

  type Graph = map<Node, seq<Node>>

  datatype Ref = Ref(identity: Identity, arn: Bytes)

  datatype Dependency = Dependency(to: Ref, required: bool)

  function NodeOf(r: Ref): Node {
    Key(r.identity)
  }

  // ------------------------------------------------------------ directed paths

  function Next(g: Graph, n: Node): seq<Node> {
    if n in g then g[n] else []
  }

  predicate Edge(g: Graph, a: Node, b: Node) {
    b in Next(g, a)
  }

  ghost predicate Path(g: Graph, p: seq<Node>) {
    p != [] && forall i | 0 <= i < |p| - 1 :: Edge(g, p[i], p[i + 1])
  }

  ghost predicate Cycle(g: Graph, p: seq<Node>) {
    |p| > 1 && Path(g, p) && p[0] == p[|p| - 1]
  }

  ghost predicate HasCycle(g: Graph) {
    exists p :: Cycle(g, p)
  }

  /** Some path from n leads to a node on a cycle. */
  ghost predicate ReachesCycle(g: Graph, n: Node) {
    exists p, c :: Path(g, p) && Cycle(g, c) && p[0] == n && p[|p| - 1] == c[0]
  }

  lemma OnCycle(g: Graph, c: seq<Node>)
    requires Cycle(g, c)
    ensures ReachesCycle(g, c[0])
  {
    var p := [c[0]];
    assert Path(g, p) && p[|p| - 1] == c[0];
  }

  lemma ReachesBefore(g: Graph, a: Node, b: Node)
    requires Edge(g, a, b) && ReachesCycle(g, b)
    ensures ReachesCycle(g, a)
  {
    var p, c :| Path(g, p) && Cycle(g, c) && p[0] == b && p[|p| - 1] == c[0];
    var q := [a] + p;
    forall i | 0 <= i < |q| - 1 ensures Edge(g, q[i], q[i + 1]) {
      assert i > 0 ==> Edge(g, p[i - 1], p[i]);
    }
    assert Path(g, q) && q[0] == a && q[|q| - 1] == c[0];
  }

  // ---------------------------------------------------------------- colours

  datatype Colour = Grey | Black

  /** The nodes being visited, from the root down. */
  ghost predicate Stacked(g: Graph, state: map<Node, Colour>, stack: seq<Node>) {
    && (forall n :: n in state && state[n] == Grey <==> n in stack)
    && (forall i | 0 <= i < |stack| - 1 :: Edge(g, stack[i], stack[i + 1]))
  }

  /** The nodes that are done, in the order in which they were finished: their
      edges lead to nodes finished earlier. */
  ghost predicate Finished(g: Graph, state: map<Node, Colour>, finished: seq<Node>) {
    && (forall n :: n in state && state[n] == Black <==> n in finished)
    && (forall i, m | 0 <= i < |finished| && Edge(g, finished[i], m) :: m in finished[..i])
  }

  ghost function Universe(g: Graph): set<Node> {
    g.Keys + set n, m | n in g && m in g[n] :: m
  }

  /** A node on the stack that is reached again closes a cycle. */
  lemma ClosesCycle(g: Graph, stack: seq<Node>, node: Node)
    requires node in stack && Edge(g, stack[|stack| - 1], node)
    requires forall i | 0 <= i < |stack| - 1 :: Edge(g, stack[i], stack[i + 1])
    ensures ReachesCycle(g, node)
  {
    var i :| 0 <= i < |stack| && stack[i] == node;
    var c := stack[i..] + [node];
    forall k | 0 <= k < |c| - 1 ensures Edge(g, c[k], c[k + 1]) {
      if k == |c| - 2 {
        assert c[k] == stack[|stack| - 1];
      } else {
        assert c[k] == stack[i + k] && c[k + 1] == stack[i + k + 1];
      }
    }
    assert Cycle(g, c);
    OnCycle(g, c);
  }

  /** A path from a finished node only goes through nodes finished earlier. */
  lemma {:induction false} PathGoesDown(g: Graph, state: map<Node, Colour>, finished: seq<Node>, p: seq<Node>, at: nat)
    requires Finished(g, state, finished) && Path(g, p) && at < |finished| && p[0] == finished[at]
    ensures p[|p| - 1] in finished[..at + 1] && (|p| > 1 ==> p[|p| - 1] in finished[..at])
    decreases |p|
  {
    if |p| > 1 {
      assert Edge(g, p[0], p[1]);
      var next :| 0 <= next < at && finished[next] == p[1];
      forall i | 0 <= i < |p[1..]| - 1 ensures Edge(g, p[1..][i], p[1..][i + 1]) {
        assert Edge(g, p[i + 1], p[i + 2]);
      }
      PathGoesDown(g, state, finished, p[1..], next);
      assert finished[..next + 1] <= finished[..at];
    }
  }

  /** No finished node is on a cycle: the one finished first would lead to itself. */
  lemma NoFinishedCycle(g: Graph, state: map<Node, Colour>, finished: seq<Node>, c: seq<Node>)
    requires Finished(g, state, finished) && Cycle(g, c)
    ensures c[0] !in finished
  {
    if c[0] in finished {
      var at := FirstIndex(finished, c[0]);
      PathGoesDown(g, state, finished, c, at);
    }
  }

  lemma FirstIndex(s: seq<Node>, n: Node) returns (i: nat)
    requires n in s
    ensures i < |s| && s[i] == n && n !in s[..i]
  {
    i := 0;
    while s[i] != n
      invariant i < |s| && n !in s[..i] && n in s[i..]
      decreases |s| - i
    {
      assert s[i..] == [s[i]] + s[i + 1..];
      assert s[..i + 1] == s[..i] + [s[i]];
      i := i + 1;
    }
  }

  lemma FinishedReachesNone(g: Graph, state: map<Node, Colour>, finished: seq<Node>, n: Node)
    requires Finished(g, state, finished) && n in finished
    ensures !ReachesCycle(g, n)
  {
    if ReachesCycle(g, n) {
      var p, c :| Path(g, p) && Cycle(g, c) && p[0] == n && p[|p| - 1] == c[0];
      var at :| 0 <= at < |finished| && finished[at] == n;
      PathGoesDown(g, state, finished, p, at);
      NoFinishedCycle(g, state, finished, c);
    }
  }

  lemma FinishNode(g: Graph, state: map<Node, Colour>, stack: seq<Node>, finished: seq<Node>, node: Node)
    requires Stacked(g, state, stack + [node]) && Finished(g, state, finished) && node !in stack
    requires forall m | m in Next(g, node) :: m in state && state[m] == Black
    ensures Stacked(g, state[node := Black], stack) && Finished(g, state[node := Black], finished + [node])
  {
    var after, all := state[node := Black], finished + [node];
    forall i, m | 0 <= i < |all| && Edge(g, all[i], m) ensures m in all[..i] {
      if i < |finished| {
        assert m in finished[..i] && all[..i] == finished[..i];
      } else {
        assert all[..i] == finished;
      }
    }
    forall i | 0 <= i < |stack| - 1 ensures Edge(g, stack[i], stack[i + 1]) {
      assert stack[i] == (stack + [node])[i] && stack[i + 1] == (stack + [node])[i + 1];
    }
    forall n ensures n in after && after[n] == Grey <==> n in stack {
      assert n in stack + [node] <==> n in stack || n == node;
    }
  }

  lemma EnterNode(g: Graph, state: map<Node, Colour>, stack: seq<Node>, finished: seq<Node>, node: Node)
    requires Stacked(g, state, stack) && Finished(g, state, finished) && node !in state
    requires stack != [] ==> Edge(g, stack[|stack| - 1], node)
    ensures Stacked(g, state[node := Grey], stack + [node]) && Finished(g, state[node := Grey], finished)
            && node !in stack
  {
  }

  /** The shared colour map of the depth-first search. */
  class Search {
    const graph: Graph
    var state: map<Node, Colour>
    ghost var finished: seq<Node>

    ghost predicate Valid(stack: seq<Node>)
      reads this
    {
      Stacked(graph, state, stack) && Finished(graph, state, finished)
    }

    constructor (graph: Graph)
      ensures this.graph == graph && Valid([])
    {
      this.graph, state, finished := graph, map[], [];
    }

    /** visit: either finds a cycle, or leaves the node and all it leads to done. */
    method Visit(node: Node, ghost stack: seq<Node>) returns (cycle: bool)
      requires Valid(stack) && node in Universe(graph)
      requires stack != [] ==> Edge(graph, stack[|stack| - 1], node)
      requires stack == [] ==> forall n | n in state :: state[n] == Black
      modifies this
      ensures cycle ==> ReachesCycle(graph, node)
      ensures !cycle ==> Valid(stack) && node in state && state[node] == Black
      ensures !cycle ==> forall n | n in old(state) :: n in state && state[n] == old(state)[n]
      decreases Universe(graph) - state.Keys
    {
      if node in state && state[node] == Grey {
        ClosesCycle(graph, stack, node);
        return true;
      }
      if node in state && state[node] == Black {
        return false;
      }
      EnterNode(graph, state, stack, finished, node);
      hide Stacked, Finished, ReachesCycle;
      state := state[node := Grey];
      var successors := Next(graph, node);
      for i := 0 to |successors|
        invariant Valid(stack + [node])
        invariant forall n | n in old(state)[node := Grey] :: n in state && state[n] == old(state)[node := Grey][n]
        invariant forall k | 0 <= k < i :: successors[k] in state && state[successors[k]] == Black
      {
        assert node in state && node !in old(state);
        assert successors[i] in successors && Edge(graph, node, successors[i]);
        cycle := Visit(successors[i], stack + [node]);
        if cycle {
          ReachesBefore(graph, node, successors[i]);
          return;
        }
      }
      FinishNode(graph, state, stack, finished, node);
      state, finished := state[node := Black], finished + [node];
      cycle := false;
    }
  }

  // --------------------------------------------------------- the whole check

  /** The dependencies of a snapshot, with the resource they belong to. */
  datatype Snapshot = Snapshot(resource: Ref, dependencies: seq<Dependency>)

  /** dependencyResolved: the target is selected and both know the same ARN. */
  predicate Resolved(d: Dependency, selected: map<Node, Ref>) {
    && NodeOf(d.to) in selected
    && d.to.arn != [] && selected[NodeOf(d.to)].arn != [] && d.to.arn == selected[NodeOf(d.to)].arn
  }

  predicate Counts(d: Dependency, selected: map<Node, Ref>) {
    d.required && Resolved(d, selected)
  }

  /** The snapshot has a required, resolved dependency from a to b. */
  ghost predicate Points(s: Snapshot, selected: map<Node, Ref>, a: Node, b: Node) {
    NodeOf(s.resource) == a && exists k :: 0 <= k < |s.dependencies| && PointsAt(s, selected, k, b)
  }

  ghost predicate PointsAt(s: Snapshot, selected: map<Node, Ref>, k: nat, b: Node)
    requires k < |s.dependencies|
  {
    Counts(s.dependencies[k], selected) && NodeOf(s.dependencies[k].to) == b
  }

  ghost predicate Requires(snapshots: seq<Snapshot>, selected: map<Node, Ref>, a: Node, b: Node) {
    exists s :: s in snapshots && Points(s, selected, a, b)
  }

  /** A required dependency on a selected resource, where both know the same ARN. */
  predicate Relevant(d: Dependency, selected: map<Node, Ref>) {
    var k := Key(d.to.identity);
    d.required && k in selected && d.to.arn != [] && selected[k].arn == d.to.arn
  }

  /** One more dependency of a snapshot adds its edge if it is relevant, and nothing
      otherwise. */
  lemma OneMoreDependency(snapshots: seq<Snapshot>, selected: map<Node, Ref>, i: nat, d: Dependency, a: Node, b: Node)
    requires i < |snapshots|
    ensures var s := snapshots[i];
            Requires(snapshots[i := s.(dependencies := s.dependencies + [d])], selected, a, b) <==>
            Requires(snapshots, selected, a, b)
            || (Relevant(d, selected) && a == Key(s.resource.identity) && b == Key(d.to.identity))
  {
    var s := snapshots[i];
    var t := s.(dependencies := s.dependencies + [d]);
    var more := snapshots[i := t];
    hide Key;
    OneMorePoint(s, selected, d, a, b);
    hide Points;
    forall x | x in snapshots ensures x == s || x in more {
      var k :| 0 <= k < |snapshots| && snapshots[k] == x;
      assert more[k] == if k == i then t else x;
    }
    forall x | x in more ensures x == t || x in snapshots {
      var k :| 0 <= k < |more| && more[k] == x;
    }
    assert more[i] == t && snapshots[i] == s;
  }

  lemma OneMorePoint(s: Snapshot, selected: map<Node, Ref>, d: Dependency, a: Node, b: Node)
    ensures Points(s.(dependencies := s.dependencies + [d]), selected, a, b) <==>
            Points(s, selected, a, b)
            || (Relevant(d, selected) && a == Key(s.resource.identity) && b == Key(d.to.identity))
  {
    hide Key;
    var t := s.(dependencies := s.dependencies + [d]);
    forall k | 0 <= k < |s.dependencies| ensures PointsAt(t, selected, k, b) <==> PointsAt(s, selected, k, b) {
    }
    assert PointsAt(t, selected, |s.dependencies|, b) <==> Relevant(d, selected) && b == Key(d.to.identity);
  }

  method AddSnapshot(graph: Graph, snapshot: Snapshot, selected: map<Node, Ref>) returns (more: Graph)
    ensures forall a, b :: Edge(more, a, b) <==> Edge(graph, a, b) || Points(snapshot, selected, a, b)
  {
    more := graph;
    var from := NodeOf(snapshot.resource);
    for i := 0 to |snapshot.dependencies|
      invariant forall a, b :: Edge(more, a, b) <==>
                  Edge(graph, a, b) || (a == from && exists k :: 0 <= k < i && PointsAt(snapshot, selected, k, b))
    {
      var d := snapshot.dependencies[i];
      ghost var before := more;
      if Counts(d, selected) {
        more := more[from := Next(more, from) + [NodeOf(d.to)]];
      }
      forall a, b
        ensures Edge(more, a, b) <==> Edge(before, a, b) || (a == from && PointsAt(snapshot, selected, i, b))
      {
      }
    }
  }

  method BuildGraph(snapshots: seq<Snapshot>, selected: map<Node, Ref>) returns (graph: Graph)
    ensures forall a, b :: Edge(graph, a, b) <==> Requires(snapshots, selected, a, b)
  {
    graph := map[];
    for i := 0 to |snapshots|
      invariant forall a, b :: Edge(graph, a, b) <==> Requires(snapshots[..i], selected, a, b)
    {
      graph := AddSnapshot(graph, snapshots[i], selected);
      assert forall s :: s in snapshots[..i + 1] <==> s in snapshots[..i] || s == snapshots[i];
    }
    assert snapshots[..|snapshots|] == snapshots;
  }

  /** A cycle starts at a node with an edge, which is a key of the graph. */
  lemma CycleHasKey(g: Graph, c: seq<Node>)
    requires Cycle(g, c)
    ensures c[0] in g.Keys && ReachesCycle(g, c[0])
  {
    assert Edge(g, c[0], c[1]);
    OnCycle(g, c);
  }

  /** The sorted keys of a graph. */
  ghost predicate SortedKeys(g: Graph, sorted: seq<Node>) {
    Sorted(Le, sorted) && forall n :: n in sorted <==> n in g
  }

  method SortKeys(g: Graph, keys: set<Node> -> seq<Node>) returns (sorted: seq<Node>)
    requires forall s, n: Node :: n in keys(s) <==> n in s
    ensures SortedKeys(g, sorted)
  {
    ByteOrder();
    sorted := Sort(Le, keys(g.Keys));
    SortSorts(Le, keys(g.Keys));
    forall n ensures n in sorted <==> n in g {
      assert n in multiset(sorted) <==> n in multiset(keys(g.Keys));
    }
  }

  lemma FirstReaching(g: Graph, state: map<Node, Colour>, finished: seq<Node>, sorted: seq<Node>, i: nat)
    requires SortedKeys(g, sorted) && Finished(g, state, finished) && i < |sorted| && ReachesCycle(g, sorted[i])
    requires forall k | 0 <= k < i :: sorted[k] in finished
    ensures HasCycle(g) && forall n | n in g && ReachesCycle(g, n) :: Le(sorted[i], n)
  {
    forall n | n in g && ReachesCycle(g, n) ensures Le(sorted[i], n) {
      assert n in sorted;
      var j :| 0 <= j < |sorted| && sorted[j] == n;
      if j < i {
        FinishedReachesNone(g, state, finished, n);
      }
      LeTotal(n, n);
    }
  }

  lemma NoneReaching(g: Graph, state: map<Node, Colour>, finished: seq<Node>, sorted: seq<Node>)
    requires SortedKeys(g, sorted) && Finished(g, state, finished)
    requires forall k | 0 <= k < |sorted| :: sorted[k] in finished
    ensures !HasCycle(g)
  {
    if HasCycle(g) {
      var c :| Cycle(g, c);
      CycleHasKey(g, c);
      assert c[0] in sorted;
      FinishedReachesNone(g, state, finished, c[0]);
    }
  }

  /** Each requires the next, under the selection. */
  ghost predicate Chain(snapshots: seq<Snapshot>, selected: map<Node, Ref>, p: seq<Node>) {
    p != [] && forall i | 0 <= i < |p| - 1 :: Requires(snapshots, selected, p[i], p[i + 1])
  }

  ghost predicate Circle(snapshots: seq<Snapshot>, selected: map<Node, Ref>, c: seq<Node>) {
    |c| > 1 && Chain(snapshots, selected, c) && c[0] == c[|c| - 1]
  }

  ghost predicate Circular(snapshots: seq<Snapshot>, selected: map<Node, Ref>) {
    exists c :: Circle(snapshots, selected, c)
  }

  ghost predicate LeadsToCircle(snapshots: seq<Snapshot>, selected: map<Node, Ref>, n: Node) {
    exists p, c :: Chain(snapshots, selected, p) && Circle(snapshots, selected, c) && p[0] == n && p[|p| - 1] == c[0]
  }

  /** The paths of the graph are the chains of requirements. */
  lemma PathsAreChains(g: Graph, snapshots: seq<Snapshot>, selected: map<Node, Ref>)
    requires forall a, b :: Edge(g, a, b) <==> Requires(snapshots, selected, a, b)
    ensures HasCycle(g) <==> Circular(snapshots, selected)
    ensures forall n :: ReachesCycle(g, n) <==> LeadsToCircle(snapshots, selected, n)
    ensures forall n | ReachesCycle(g, n) :: n in g
  {
    hide Edge, Requires;
    assert forall p: seq<Node> :: Path(g, p) <==> Chain(snapshots, selected, p);
    assert forall c: seq<Node> :: Cycle(g, c) <==> Circle(snapshots, selected, c);
    forall n | ReachesCycle(g, n) ensures n in g {
      var p, c :| Path(g, p) && Cycle(g, c) && p[0] == n && p[|p| - 1] == c[0];
      HasKey(g, n, if |p| > 1 then p[1] else c[1]);
    }
  }

  lemma HasKey(g: Graph, a: Node, b: Node)
    requires Edge(g, a, b)
    ensures a in g
  {
  }

  /** validateDependencyGraph: an error exactly if some resources require each other
      in a circle. It names the first key, in order, that leads to one. `keys` lists
      a set in any order. */
  method ValidateDependencyGraph(snapshots: seq<Snapshot>, selected: map<Node, Ref>, keys: set<Node> -> seq<Node>)
    returns (error: Option<Node>)
    requires forall s, n: Node :: n in keys(s) <==> n in s
    ensures error.Some? <==> Circular(snapshots, selected)
    ensures error.Some? ==> LeadsToCircle(snapshots, selected, error.value)
    ensures error.Some? ==> forall n | LeadsToCircle(snapshots, selected, n) :: Le(error.value, n)
  {
    hide HasCycle, ReachesCycle, Circular, LeadsToCircle, Requires, Edge, Le;
    var graph := BuildGraph(snapshots, selected);
    PathsAreChains(graph, snapshots, selected);
    var sorted := SortKeys(graph, keys);
    error := FindCycle(graph, sorted);
  }

  method FindCycle(graph: Graph, sorted: seq<Node>) returns (error: Option<Node>)
    requires SortedKeys(graph, sorted)
    ensures error.Some? <==> HasCycle(graph)
    ensures error.Some? ==> ReachesCycle(graph, error.value)
    ensures error.Some? ==> forall n | n in graph && ReachesCycle(graph, n) :: Le(error.value, n)
  {
    hide HasCycle, ReachesCycle;
    var search := new Search(graph);
    for i := 0 to |sorted|
      invariant search.graph == graph && search.Valid([])
      invariant forall k | 0 <= k < i :: sorted[k] in search.finished
    {
      assert sorted[i] in sorted;
      ghost var state, finished := search.state, search.finished;
      var cycle := search.Visit(sorted[i], []);
      if cycle {
        FirstReaching(graph, state, finished, sorted, i);
        return Some(sorted[i]);
      }
    }
    NoneReaching(graph, search.state, search.finished, sorted);
    error := None;
  }

  /** The key in the error need not be on a cycle: here the first resource requires the
      second, which requires itself, and the first one is reported. */
  lemma ReportedKeyOffCycle() returns (snapshots: seq<Snapshot>, selected: map<Node, Ref>, n: Node)
    ensures Circular(snapshots, selected) && LeadsToCircle(snapshots, selected, n)
    ensures forall m | LeadsToCircle(snapshots, selected, m) :: Le(n, m)
    ensures forall c | Circle(snapshots, selected, c) :: n !in c
  {
    var a, b := Ref(Identity([1], [1], [1]), [1]), Ref(Identity([2], [1], [1]), [2]);
    var m := NodeOf(b);
    n := NodeOf(a);
    snapshots := [Snapshot(a, [Dependency(b, true)]), Snapshot(b, [Dependency(b, true)])];
    selected := map[n := a, m := b];
    KeyText(a.identity);
    KeyText(b.identity);
    assert n[0] == 1 && m[0] == 2;
    OnlyTheSecond(snapshots, selected, a, b);
    LeadsOnly(snapshots, selected, n, m);
  }

  /** If m requires itself, n requires m, and that is all, then n leads to the circle and
      is not on it. */
  lemma LeadsOnly(snapshots: seq<Snapshot>, selected: map<Node, Ref>, n: Node, m: Node)
    requires forall x, y :: Requires(snapshots, selected, x, y) <==> (x == n || x == m) && y == m
    requires n != m && Le(n, m)
    ensures Circular(snapshots, selected) && LeadsToCircle(snapshots, selected, n)
    ensures forall k | LeadsToCircle(snapshots, selected, k) :: Le(n, k)
    ensures forall c | Circle(snapshots, selected, c) :: n !in c
  {
    hide Requires, Le;
    var p, c := [n, m], [m, m];
    assert Circle(snapshots, selected, c);
    assert Chain(snapshots, selected, p) && p[|p| - 1] == c[0] && p[0] == n;
    LeTotal(n, n);
    forall c | Circle(snapshots, selected, c) ensures n !in c {
      forall i | 0 <= i < |c| ensures c[i] != n {
        var j := if i == 0 then |c| - 1 else i;
        assert c[j] == c[i] && Requires(snapshots, selected, c[j - 1], c[j]);
      }
    }
    forall k | LeadsToCircle(snapshots, selected, k) ensures Le(n, k) {
      var p, c :| Chain(snapshots, selected, p) && Circle(snapshots, selected, c) && p[0] == k && p[|p| - 1] == c[0];
      assert Requires(snapshots, selected, k, if |p| > 1 then p[1] else c[1]);
    }
  }

  /** The requirements of the example: both resources require the second. */
  lemma OnlyTheSecond(snapshots: seq<Snapshot>, selected: map<Node, Ref>, a: Ref, b: Ref)
    requires snapshots == [Snapshot(a, [Dependency(b, true)]), Snapshot(b, [Dependency(b, true)])]
    requires NodeOf(a) != NodeOf(b) && b.arn != [] && selected == map[NodeOf(a) := a, NodeOf(b) := b]
    ensures forall x, y :: Requires(snapshots, selected, x, y) <==> (x == NodeOf(a) || x == NodeOf(b)) && y == NodeOf(b)
  {
    hide Key;
    forall s, x, y | s in snapshots
      ensures Points(s, selected, x, y) <==> x == NodeOf(s.resource) && y == NodeOf(b)
    {
      assert PointsAt(s, selected, 0, NodeOf(b));
    }
    assert snapshots[0] in snapshots && snapshots[1] in snapshots;
  }
}
