/**
 * The pure dependency rule of the workspace (scripts/purity.py): the reader of
 * depth-prefixed dependency trees and the worklist that checks what each pure
 * crate reaches.
 */
module Purity {
  /** A crate by name and version. */
  type Node = (string, string)

  datatype Row = Row(depth: nat, node: Node, isLocal: bool)

  datatype GraphValue = GraphValue(children: map<Node, set<Node>>, local: set<Node>)

  // ---- Reading a listing ------------------------------------------------

  /** The graph read so far and the path to the last row. */
  datatype Reader = Reader(graph: GraphValue, stack: seq<Node>)

  function Cut(stack: seq<Node>, depth: nat): seq<Node> {
    if depth < |stack| then stack[..depth] else stack
  }

  function WithNode(children: map<Node, set<Node>>, node: Node): map<Node, set<Node>> {
    if node in children then children else children[node := {}]
  }

  function WithEdge(children: map<Node, set<Node>>, from: Node, to: Node): map<Node, set<Node>> {
    if from in children then children[from := children[from] + {to}] else children
  }

  function ReadRow(r: Reader, row: Row): Reader {
    var stack := Cut(r.stack, row.depth);
    var noded := WithNode(r.graph.children, row.node);
    var children := if stack == [] then noded else WithEdge(noded, stack[|stack| - 1], row.node);
    var local := if row.isLocal then r.graph.local + {row.node} else r.graph.local;
    Reader(GraphValue(children, local), stack + [row.node])
  }

  function ReadRows(r: Reader, rows: seq<Row>): Reader
    decreases |rows|
  {
    if rows == [] then r else ReadRows(ReadRow(r, rows[0]), rows[1..])
  }

  class Graph {
    var children: map<Node, set<Node>>
    var local: set<Node>

    ghost function Value(): GraphValue
      reads this
    {
      GraphValue(children, local)
    }

    constructor ()
      ensures Value() == GraphValue(map[], {})
    {
      children, local := map[], {};
    }

    /** Add the edges of one resolved tree, listed depth-prefixed. */
    method Add(rows: seq<Row>)
      modifies this
      ensures Value() == ReadRows(Reader(old(Value()), []), rows).graph
    {
      var stack: seq<Node> := [];
      for i := 0 to |rows|
        invariant forall k :: 0 <= k < |stack| ==> stack[k] in children
        invariant ReadRows(Reader(Value(), stack), rows[i..]) == ReadRows(Reader(old(Value()), []), rows)
      {
        assert rows[i..][1..] == rows[i + 1..];
        stack := AddRow(stack, rows[i]);
      }
    }

    /** Add one row under the path `stack`; the path to the row itself. */
    method AddRow(stack: seq<Node>, row: Row) returns (path: seq<Node>)
      requires forall k :: 0 <= k < |stack| ==> stack[k] in children
      modifies this
      ensures Reader(Value(), path) == ReadRow(Reader(old(Value()), stack), row)
      ensures forall k :: 0 <= k < |path| ==> path[k] in children
    {
      var above := if row.depth < |stack| then stack[..row.depth] else stack;
      if row.node !in children {
        children := children[row.node := {}];
      }
      if row.isLocal {
        local := local + {row.node};
      }
      if above != [] {
        children := children[above[|above| - 1] := children[above[|above| - 1]] + {row.node}];
      }
      path := above + [row.node];
    }
  }

  // ---- Trees and their listings -----------------------------------------

  datatype Tree = Tree(node: Node, isLocal: bool, kids: seq<Tree>)

  /** The preorder listing of a tree, each row prefixed with its depth. */
  function Listing(t: Tree, depth: nat): seq<Row>
    decreases t, 1
  {
    [Row(depth, t.node, t.isLocal)] + ListingAll(t.kids, depth + 1)
  }

  function ListingAll(ts: seq<Tree>, depth: nat): seq<Row>
    decreases ts, 0
  {
    if ts == [] then [] else Listing(ts[0], depth) + ListingAll(ts[1..], depth)
  }

  /** What a tree or a forest contributes to the graph. */
  datatype Parts = Parts(nodes: set<Node>, edges: set<(Node, Node)>, locals: set<Node>)

  function Union(a: Parts, b: Parts): Parts {
    Parts(a.nodes + b.nodes, a.edges + b.edges, a.locals + b.locals)
  }

  /** The tree's nodes and its parent-child edges. */
  function PartsOf(t: Tree): Parts
    decreases t, 1
  {
    Union(Parts({t.node}, {}, if t.isLocal then {t.node} else {}), PartsUnder(t.node, t.kids))
  }

  /** The same of the subtrees hung under `parent`. */
  function PartsUnder(parent: Node, ts: seq<Tree>): Parts
    decreases ts, 0
  {
    if ts == [] then Parts({}, {}, {})
    else Union(Union(PartsOf(ts[0]), Parts({}, {(parent, ts[0].node)}, {})), PartsUnder(parent, ts[1..]))
  }

  predicate HasEdge(g: GraphValue, from: Node, to: Node) {
    from in g.children && to in g.children[from]
  }

  /** `after` is `before` with exactly `p` added. */
  ghost predicate Adds(before: GraphValue, after: GraphValue, p: Parts) {
    && after.children.Keys == before.children.Keys + p.nodes
    && after.local == before.local + p.locals
    && forall from, to :: HasEdge(after, from, to) <==> HasEdge(before, from, to) || (from, to) in p.edges
  }

  lemma AddsTwice(a: GraphValue, b: GraphValue, c: GraphValue, p: Parts, q: Parts)
    requires Adds(a, b, p) && Adds(b, c, q)
    ensures Adds(a, c, Union(p, q))
  {
  }

  ghost predicate Keyed(r: Reader) {
    forall k :: 0 <= k < |r.stack| ==> r.stack[k] in r.graph.children
  }

  lemma {:induction false} ReadAppend(r: Reader, a: seq<Row>, b: seq<Row>)
    ensures ReadRows(r, a + b) == ReadRows(ReadRows(r, a), b)
    decreases |a|
  {
    if a == [] {
      assert a + b == b;
    } else {
      assert (a + b)[1..] == a[1..] + b;
      ReadAppend(ReadRow(r, a[0]), a[1..], b);
    }
  }

  /** The edge to the row's parent, when the stack has one. */
  function ParentEdge(stack: seq<Node>, depth: nat, node: Node): set<(Node, Node)> {
    if 0 < depth <= |stack| then {(stack[depth - 1], node)} else {}
  }

  lemma ReadOneRow(r: Reader, row: Row)
    requires Keyed(r) && row.depth <= |r.stack|
    ensures
      var after := ReadRow(r, row);
      && Keyed(after) && after.stack == r.stack[..row.depth] + [row.node]
      && Adds(r.graph, after.graph,
              Parts({row.node}, ParentEdge(r.stack, row.depth, row.node), if row.isLocal then {row.node} else {}))
  {
  }

  /** Reading a subtree's listing adds the subtree under the row above it. */
  lemma {:induction false} ReadTree(r: Reader, t: Tree, depth: nat)
    requires Keyed(r) && depth <= |r.stack|
    ensures
      var after := ReadRows(r, Listing(t, depth));
      && Keyed(after) && depth < |after.stack| && after.stack[..depth + 1] == r.stack[..depth] + [t.node]
      && Adds(r.graph, after.graph, Union(PartsOf(t), Parts({}, ParentEdge(r.stack, depth, t.node), {})))
    decreases t, 1
  {
    var row := Row(depth, t.node, t.isLocal);
    var first := ReadRow(r, row);
    ReadOneRow(r, row);
    assert Listing(t, depth)[0] == row && Listing(t, depth)[1..] == ListingAll(t.kids, depth + 1);
    ReadForest(first, t.kids, depth + 1);
    var after := ReadRows(first, ListingAll(t.kids, depth + 1));
    assert first.stack[depth] == t.node;
    var edge := ParentEdge(r.stack, depth, t.node);
    AddsTwice(r.graph, first.graph, after.graph,
              Parts({t.node}, edge, if t.isLocal then {t.node} else {}), PartsUnder(t.node, t.kids));
    OwnParts(t, edge);
  }

  lemma OwnParts(t: Tree, edge: set<(Node, Node)>)
    ensures Union(Parts({t.node}, edge, if t.isLocal then {t.node} else {}), PartsUnder(t.node, t.kids))
         == Union(PartsOf(t), Parts({}, edge, {}))
  {
  }

  lemma {:induction false} ReadForest(r: Reader, ts: seq<Tree>, depth: nat)
    requires Keyed(r) && 0 < depth <= |r.stack|
    ensures
      var after := ReadRows(r, ListingAll(ts, depth));
      && Keyed(after) && depth <= |after.stack| && after.stack[..depth] == r.stack[..depth]
      && Adds(r.graph, after.graph, PartsUnder(r.stack[depth - 1], ts))
    decreases ts, 0
  {
    if ts != [] {
      var parent := r.stack[depth - 1];
      ReadTree(r, ts[0], depth);
      var mid := ReadRows(r, Listing(ts[0], depth));
      assert mid.stack[..depth] == mid.stack[..depth + 1][..depth] == r.stack[..depth];
      assert mid.stack[depth - 1] == mid.stack[..depth][depth - 1] == r.stack[..depth][depth - 1] == parent;
      ReadForest(mid, ts[1..], depth);
      ReadAppend(r, Listing(ts[0], depth), ListingAll(ts[1..], depth));
      var after := ReadRows(mid, ListingAll(ts[1..], depth));
      var one := Union(PartsOf(ts[0]), Parts({}, {(parent, ts[0].node)}, {}));
      AddsTwice(r.graph, mid.graph, after.graph, one, PartsUnder(parent, ts[1..]));
    }
  }

  /** Reading a tree's listing adds exactly its nodes and its parent-child edges. */
  lemma {:induction false} ListingReadsBack(g: GraphValue, t: Tree)
    ensures Adds(g, ReadRows(Reader(g, []), Listing(t, 0)).graph, PartsOf(t))
  {
    ReadTree(Reader(g, []), t, 0);
    assert Union(PartsOf(t), Parts({}, {}, {})) == PartsOf(t);
  }

  /** Reading several listings one after the other. */
  function ReadTrees(g: GraphValue, ts: seq<Tree>): GraphValue
    decreases |ts|
  {
    if ts == [] then g else ReadTrees(ReadRows(Reader(g, []), Listing(ts[0], 0)).graph, ts[1..])
  }

  function PartsOfAll(ts: seq<Tree>): Parts {
    if ts == [] then Parts({}, {}, {}) else Union(PartsOf(ts[0]), PartsOfAll(ts[1..]))
  }

  /** Several listings read into one graph give their union. */
  lemma {:induction false} ListingsReadBack(g: GraphValue, ts: seq<Tree>)
    ensures Adds(g, ReadTrees(g, ts), PartsOfAll(ts))
    decreases |ts|
  {
    if ts != [] {
      var mid := ReadRows(Reader(g, []), Listing(ts[0], 0)).graph;
      ListingReadsBack(g, ts[0]);
      ListingsReadBack(mid, ts[1..]);
      AddsTwice(g, mid, ReadTrees(mid, ts[1..]), PartsOf(ts[0]), PartsOfAll(ts[1..]));
    }
  }

  // ---- The pure rule ----------------------------------------------------

  /** What the rule reads beside the graph: the tier of each local crate, and the third-party names allowed. */
  datatype Policy = Policy(tiers: map<string, string>, pureDeps: set<string>)

  predicate TierIsPure(p: Policy, n: Node) { n.0 in p.tiers && p.tiers[n.0] == "pure" }

  /** A pure local crate: where a walk starts, and where one stops. */
  predicate PureLocal(g: GraphValue, p: Policy, n: Node) { n in g.local && TierIsPure(p, n) }

  /** A third-party crate a walk goes through. */
  predicate Allowed(g: GraphValue, p: Policy, n: Node) { n !in g.local && n.0 in p.pureDeps }

  predicate Forbidden(g: GraphValue, p: Policy, n: Node) { !PureLocal(g, p, n) && !Allowed(g, p, n) }

  function ChildrenOf(g: GraphValue, n: Node): set<Node> {
    if n in g.children then g.children[n] else {}
  }

  /** A path of the graph's edges, through anything. */
  ghost predicate IsPath(g: GraphValue, path: seq<Node>) {
    forall i :: 0 <= i < |path| - 1 ==> HasEdge(g, path[i], path[i + 1])
  }

  /** A path whose inner nodes are all allowed third-party crates. */
  ghost predicate IsWalk(g: GraphValue, p: Policy, root: Node, path: seq<Node>, n: Node) {
    && |path| >= 2 && path[0] == root && path[|path| - 1] == n && IsPath(g, path)
    && forall i :: 0 < i < |path| - 1 ==> path[i] !in g.local && path[i].0 in p.pureDeps
  }

  ghost predicate Reached(g: GraphValue, p: Policy, root: Node, n: Node) {
    exists path :: IsWalk(g, p, root, path, n)
  }

  function Names(path: seq<Node>): seq<string> {
    seq(|path|, i requires 0 <= i < |path| => path[i].0)
  }

  /** Every node the graph mentions. */
  function Universe(g: GraphValue): set<Node> {
    g.children.Keys + (set n, c | n in g.children && c in g.children[n] :: c)
  }

  method Listed(s: set<Node>) returns (r: seq<Node>)
    ensures forall n :: n in r <==> n in s
  {
    r := [];
    var left := s;
    while left != {}
      invariant left <= s
      invariant forall n :: n in r <==> n in s - left
      decreases left
    {
      var n :| n in left;
      left := left - {n};
      r := r + [n];
    }
  }

  /** A child of a walk's allowed end, or of the root, is the end of a longer walk. */
  lemma WalkOn(g: GraphValue, p: Policy, root: Node, path: seq<Node>, n: Node, c: Node)
    requires IsWalk(g, p, root, path, n) && Allowed(g, p, n) && c in ChildrenOf(g, n)
    ensures IsWalk(g, p, root, path + [c], c)
  {
  }

  /** `seen` and `todo` hold the children of everything walked through. */
  ghost predicate Closed(g: GraphValue, p: Policy, root: Node, seen: set<Node>, todo: set<Node>) {
    && ChildrenOf(g, root) <= seen + todo
    && forall n :: n in seen && Allowed(g, p, n) ==> ChildrenOf(g, n) <= seen + todo
  }

  /** With nothing left to do, everything reached was seen. */
  lemma {:induction false} ReachedIsSeen(g: GraphValue, p: Policy, root: Node, seen: set<Node>, path: seq<Node>, n: Node)
    requires Closed(g, p, root, seen, {}) && IsWalk(g, p, root, path, n)
    ensures n in seen
    decreases |path|
  {
    var last := |path| - 1;
    assert path[last - 1 + 1] in ChildrenOf(g, path[last - 1]);
    if last > 1 {
      var front := path[..last];
      assert forall i :: 0 <= i < |front| ==> front[i] == path[i];
      ReachedIsSeen(g, p, root, seen, front, path[last - 1]);
    }
  }

  /**
   * The walk from one root: its breaches join those found before, which stand,
   * and the allowed names it reaches join those used.
   */
  method Walk(g: GraphValue, p: Policy, root: Node, found: map<(string, string), seq<string>>, known: set<string>)
    returns (breaches: map<(string, string), seq<string>>, used: set<string>)
    requires root in Roots(g, p)
    requires forall k :: k in found ==> IsVia(g, p, k.0, k.1, found[k])
    ensures forall k :: k in breaches <==> k in found || Breaches(g, p, {root}, k.0, k.1)
    ensures forall k :: k in breaches ==> IsVia(g, p, k.0, k.1, breaches[k])
    ensures forall dep :: dep in used <==> dep in known || Uses(g, p, {root}, dep)
  {
    breaches, used := found, known;
    var todo := FirstSteps(g, p, root);
    var seen: set<Node> := {};
    while todo != []
      invariant Frontier(g, p, root, seen, todo)
      invariant Judged(g, p, root, seen, found, breaches) && Counted(g, p, seen, known, used)
      invariant forall k :: k in breaches ==> IsVia(g, p, k.0, k.1, breaches[k])
      decreases Universe(g) - seen, |todo|
    {
      var (node, path) := todo[|todo| - 1];
      if node in seen {
        Skipping(g, p, root, seen, todo);
        assert seen + {node} == seen;
        todo := todo[..|todo| - 1];
      } else {
        assert todo[|todo| - 1] in todo;
        todo, breaches, used := Visit(g, p, root, seen, todo, found, breaches, known, used);
        seen := seen + {node};
      }
    }
    WalkDone(g, p, root, seen, found, breaches, known, used);
  }

  /** Take the last queued node, not seen before: judge it, and queue its children where the walk goes on. */
  method Visit(g: GraphValue, p: Policy, root: Node, ghost seen: set<Node>, todo: seq<(Node, seq<Node>)>,
               ghost found: map<(string, string), seq<string>>, breaches: map<(string, string), seq<string>>,
               ghost known: set<string>, used: set<string>)
    returns (more: seq<(Node, seq<Node>)>, judged: map<(string, string), seq<string>>, counted: set<string>)
    requires root in Roots(g, p) && Frontier(g, p, root, seen, todo) && todo != []
    requires Judged(g, p, root, seen, found, breaches) && Counted(g, p, seen, known, used)
    requires forall k :: k in breaches ==> IsVia(g, p, k.0, k.1, breaches[k])
    ensures Frontier(g, p, root, seen + {todo[|todo| - 1].0}, more)
    ensures Judged(g, p, root, seen + {todo[|todo| - 1].0}, found, judged)
    ensures Counted(g, p, seen + {todo[|todo| - 1].0}, known, counted)
    ensures forall k :: k in judged ==> IsVia(g, p, k.0, k.1, judged[k])
  {
    var (node, path) := todo[|todo| - 1];
    LastQueued(g, p, root, seen, todo);
    more, judged, counted := todo[..|todo| - 1], breaches, used;
    if Allowed(g, p, node) {
      counted := used + {node.0};
      var kids := Listed(ChildrenOf(g, node));
      more := Pushed(g, p, root, more, kids, node, path);
      Pushing(g, p, root, seen, todo, more);
    } else {
      Skipping(g, p, root, seen, todo);
      if Forbidden(g, p, node) {
        judged := Recorded(g, p, root, node, path, breaches);
      }
    }
    JudgingOne(g, p, root, seen, node, found, breaches, judged);
    CountingOne(g, p, seen, node, known, used, counted);
  }

  /** Record a breach by the walk to it, unless one stands. */
  method Recorded(g: GraphValue, p: Policy, root: Node, node: Node, path: seq<Node>, breaches: map<(string, string), seq<string>>)
    returns (judged: map<(string, string), seq<string>>)
    requires root in Roots(g, p) && IsWalk(g, p, root, path, node)
    requires forall k :: k in breaches ==> IsVia(g, p, k.0, k.1, breaches[k])
    ensures judged.Keys == breaches.Keys + {(root.0, node.0)}
    ensures forall k :: k in judged ==> IsVia(g, p, k.0, k.1, judged[k])
  {
    judged := breaches;
    if (root.0, node.0) !in breaches {
      assert IsVia(g, p, root.0, node.0, Names(path));
      judged := breaches[(root.0, node.0) := Names(path)];
    }
  }

  /** What is queued last lies at the end of its walk. */
  lemma {:induction false} LastQueued(g: GraphValue, p: Policy, root: Node, seen: set<Node>, todo: seq<(Node, seq<Node>)>)
    requires Frontier(g, p, root, seen, todo) && todo != []
    ensures IsWalk(g, p, root, todo[|todo| - 1].1, todo[|todo| - 1].0)
    ensures forall t :: t in todo[..|todo| - 1] ==> IsWalk(g, p, root, t.1, t.0) && t.0 in Universe(g)
  {
    assert todo[|todo| - 1] in todo;
  }

  /** With the queue empty, what was judged is what is reached. */
  lemma {:induction false} WalkDone(g: GraphValue, p: Policy, root: Node, seen: set<Node>, found: map<(string, string), seq<string>>,
                 breaches: map<(string, string), seq<string>>, known: set<string>, used: set<string>)
    requires Frontier(g, p, root, seen, []) && Judged(g, p, root, seen, found, breaches) && Counted(g, p, seen, known, used)
    ensures forall k :: k in breaches <==> k in found || Breaches(g, p, {root}, k.0, k.1)
    ensures forall dep :: dep in used <==> dep in known || Uses(g, p, {root}, dep)
  {
    SeenIsReached(g, p, root, seen);
  }

  /** What is queued lies at the end of walks, and so does what was seen, with nothing skipped between. */
  ghost predicate Frontier(g: GraphValue, p: Policy, root: Node, seen: set<Node>, todo: seq<(Node, seq<Node>)>) {
    && (forall t :: t in todo ==> IsWalk(g, p, root, t.1, t.0) && t.0 in Universe(g))
    && (forall n :: n in seen ==> Reached(g, p, root, n) && n in Universe(g))
    && (forall c :: c in ChildrenOf(g, root) ==> c in seen || Pending(todo, c))
    && (forall n, c :: n in seen && Allowed(g, p, n) && c in ChildrenOf(g, n) ==> c in seen || Pending(todo, c))
  }

  lemma Skipping(g: GraphValue, p: Policy, root: Node, seen: set<Node>, todo: seq<(Node, seq<Node>)>)
    requires Frontier(g, p, root, seen, todo) && todo != []
    requires todo[|todo| - 1].0 in seen || !Allowed(g, p, todo[|todo| - 1].0)
    ensures Frontier(g, p, root, seen + {todo[|todo| - 1].0}, todo[..|todo| - 1])
  {
  }

  lemma Pushing(g: GraphValue, p: Policy, root: Node, seen: set<Node>, todo: seq<(Node, seq<Node>)>, more: seq<(Node, seq<Node>)>)
    requires Frontier(g, p, root, seen, todo) && todo != []
    requires forall t :: t in todo[..|todo| - 1] ==> t in more
    requires forall t :: t in more ==> IsWalk(g, p, root, t.1, t.0) && t.0 in Universe(g)
    requires forall c :: c in ChildrenOf(g, todo[|todo| - 1].0) ==> Pending(more, c)
    ensures Frontier(g, p, root, seen + {todo[|todo| - 1].0}, more)
  {
  }

  /** Seeing one more node adds its breach, if it is one. */
  lemma JudgingOne(g: GraphValue, p: Policy, root: Node, seen: set<Node>, node: Node, found: map<(string, string), seq<string>>,
                   breaches: map<(string, string), seq<string>>, judged: map<(string, string), seq<string>>)
    requires Judged(g, p, root, seen, found, breaches)
    requires judged.Keys == breaches.Keys + if Forbidden(g, p, node) then {(root.0, node.0)} else {}
    ensures Judged(g, p, root, seen + {node}, found, judged)
  {
  }

  /** Seeing one more node adds its name, if it is allowed. */
  lemma CountingOne(g: GraphValue, p: Policy, seen: set<Node>, node: Node, known: set<string>, used: set<string>, counted: set<string>)
    requires Counted(g, p, seen, known, used)
    requires counted == used + if Allowed(g, p, node) then {node.0} else {}
    ensures Counted(g, p, seen + {node}, known, counted)
  {
  }

  /** A breach for each forbidden node seen, beside those found before. */
  ghost predicate Judged(g: GraphValue, p: Policy, root: Node, seen: set<Node>, found: map<(string, string), seq<string>>,
                         breaches: map<(string, string), seq<string>>)
  {
    forall k :: k in breaches <==> k in found || exists n :: n in seen && k == (root.0, n.0) && Forbidden(g, p, n)
  }

  /** A name for each allowed node seen, beside those known before. */
  ghost predicate Counted(g: GraphValue, p: Policy, seen: set<Node>, known: set<string>, used: set<string>) {
    forall dep :: dep in used <==> dep in known || exists n :: n in seen && dep == n.0 && Allowed(g, p, n)
  }

  lemma {:induction false} SeenIsReached(g: GraphValue, p: Policy, root: Node, seen: set<Node>)
    requires Closed(g, p, root, seen, {})
    requires forall n :: n in seen ==> Reached(g, p, root, n)
    ensures forall n :: n in seen <==> Reached(g, p, root, n)
  {
    forall n | Reached(g, p, root, n) ensures n in seen {
      var path :| IsWalk(g, p, root, path, n);
      ReachedIsSeen(g, p, root, seen, path, n);
    }
  }

  /** The root's children, each by the walk of one edge to it. */
  method FirstSteps(g: GraphValue, p: Policy, root: Node) returns (todo: seq<(Node, seq<Node>)>)
    ensures forall t :: t in todo ==> IsWalk(g, p, root, t.1, t.0) && t.0 in Universe(g)
    ensures forall c :: c in ChildrenOf(g, root) ==> Pending(todo, c)
  {
    var first := Listed(ChildrenOf(g, root));
    todo := [];
    for i := 0 to |first|
      invariant forall t :: t in todo ==> IsWalk(g, p, root, t.1, t.0) && t.0 in Universe(g)
      invariant forall k :: 0 <= k < i ==> Pending(todo, first[k])
    {
      assert first[i] in first;
      ghost var before := todo;
      todo := todo + [(first[i], [root, first[i]])];
      PushKeeps(before, todo);
      assert (first[i], [root, first[i]]) in todo;
    }
    forall c | c in ChildrenOf(g, root) ensures Pending(todo, c) { assert c in first; }
  }

  ghost predicate Pending(todo: seq<(Node, seq<Node>)>, n: Node) {
    exists t :: t in todo && t.0 == n
  }

  lemma PushKeeps(todo: seq<(Node, seq<Node>)>, more: seq<(Node, seq<Node>)>)
    requires forall t :: t in todo ==> t in more
    ensures forall n :: Pending(todo, n) ==> Pending(more, n)
  {
  }

  /** The children of `node` queued, each by the walk to `node` and itself. */
  method Pushed(g: GraphValue, p: Policy, root: Node, todo: seq<(Node, seq<Node>)>, kids: seq<Node>, node: Node, path: seq<Node>)
    returns (more: seq<(Node, seq<Node>)>)
    requires IsWalk(g, p, root, path, node) && Allowed(g, p, node)
    requires forall c :: c in kids <==> c in ChildrenOf(g, node)
    requires forall t :: t in todo ==> IsWalk(g, p, root, t.1, t.0) && t.0 in Universe(g)
    ensures forall t :: t in todo ==> t in more
    ensures forall t :: t in more ==> IsWalk(g, p, root, t.1, t.0) && t.0 in Universe(g)
    ensures forall c :: c in ChildrenOf(g, node) ==> Pending(more, c)
  {
    more := todo;
    for i := 0 to |kids|
      invariant forall t :: t in todo ==> t in more
      invariant forall t :: t in more ==> IsWalk(g, p, root, t.1, t.0) && t.0 in Universe(g)
      invariant forall k :: 0 <= k < i ==> Pending(more, kids[k])
    {
      assert kids[i] in kids;
      WalkOn(g, p, root, path, node, kids[i]);
      ghost var before := more;
      more := more + [(kids[i], path + [kids[i]])];
      PushKeeps(before, more);
      assert (kids[i], path + [kids[i]]) in more;
    }
    forall c | c in ChildrenOf(g, node) ensures Pending(more, c) {
      assert c in kids;
    }
  }

  /** A pure crate may not reach it: a local crate of another tier or none, or a third-party one not named. */
  predicate AgainstTheRule(g: GraphValue, p: Policy, n: Node) {
    if n in g.local then !(n.0 in p.tiers && p.tiers[n.0] == "pure") else n.0 !in p.pureDeps
  }

  /** The breaches of one root and the allowed names it uses. */
  ghost predicate Breaches(g: GraphValue, p: Policy, roots: set<Node>, crate: string, dep: string) {
    exists r: Node, n: Node :: r in roots && r.0 == crate && n.0 == dep && Reached(g, p, r, n) && AgainstTheRule(g, p, n)
  }

  ghost predicate Uses(g: GraphValue, p: Policy, roots: set<Node>, dep: string) {
    exists r: Node, n: Node :: r in roots && n.0 == dep && Reached(g, p, r, n) && n !in g.local && dep in p.pureDeps
  }

  /** Where the rule starts: the pure local crates. */
  function Roots(g: GraphValue, p: Policy): set<Node> {
    set n | n in g.local && n.0 in p.tiers && p.tiers[n.0] == "pure"
  }

  /** The chain recorded for a breach is the names along a walk from the crate to it. */
  ghost predicate IsVia(g: GraphValue, p: Policy, crate: string, dep: string, via: seq<string>) {
    exists r: Node, path: seq<Node>, n: Node :: r in Roots(g, p) && r.0 == crate && n.0 == dep && IsWalk(g, p, r, path, n) && via == Names(path)
  }

  /**
   * Walk from every pure local crate. The breaches are exactly the forbidden nodes
   * some walk ends in, each with the names along one such walk; the names used
   * are exactly those of the allowed nodes some walk ends in.
   */
  method PureRule(g: GraphValue, p: Policy) returns (breaches: map<(string, string), seq<string>>, used: set<string>)
    ensures forall crate, dep :: (crate, dep) in breaches <==> Breaches(g, p, Roots(g, p), crate, dep)
    ensures forall k :: k in breaches ==> IsVia(g, p, k.0, k.1, breaches[k])
    ensures forall dep :: dep in used <==> Uses(g, p, Roots(g, p), dep)
  {
    breaches, used := map[], {};
    var left := Roots(g, p);
    while left != {}
      invariant left <= Roots(g, p)
      invariant forall crate, dep :: (crate, dep) in breaches <==> Breaches(g, p, Roots(g, p) - left, crate, dep)
      invariant forall k :: k in breaches ==> IsVia(g, p, k.0, k.1, breaches[k])
      invariant forall dep :: dep in used <==> Uses(g, p, Roots(g, p) - left, dep)
      decreases left
    {
      var root :| root in left;
      ghost var done := Roots(g, p) - left;
      breaches, used := Walk(g, p, root, breaches, used);
      left := left - {root};
      assert Roots(g, p) - left == done + {root};
      OneMoreRoot(g, p, done, root);
    }
  }

  lemma OneMoreRoot(g: GraphValue, p: Policy, done: set<Node>, root: Node)
    ensures forall crate, dep :: Breaches(g, p, done + {root}, crate, dep)
              <==> Breaches(g, p, done, crate, dep) || Breaches(g, p, {root}, crate, dep)
    ensures forall dep :: Uses(g, p, done + {root}, dep) <==> Uses(g, p, done, dep) || Uses(g, p, {root}, dep)
  {
  }

  // ---- What a clean rule means ------------------------------------------

  /** No walk from a pure crate ends in a forbidden one. */
  ghost predicate Clean(g: GraphValue, p: Policy) {
    forall r, n :: r in Roots(g, p) && Reached(g, p, r, n) ==> !Forbidden(g, p, n)
  }

  /** A node on a path from a pure crate is a root itself, or allowed and at the end of some root's walk. */
  ghost predicate Accounted(g: GraphValue, p: Policy, n: Node) {
    n in Roots(g, p) || (Allowed(g, p, n) && exists r :: r in Roots(g, p) && Reached(g, p, r, n))
  }

  lemma {:induction false} ChildAccounted(g: GraphValue, p: Policy, n: Node, c: Node)
    requires Clean(g, p) && Accounted(g, p, n) && c in ChildrenOf(g, n)
    ensures Accounted(g, p, c)
  {
    if n in Roots(g, p) {
      assert IsWalk(g, p, n, [n, c], c);
      assert Reached(g, p, n, c);
    } else {
      var r :| r in Roots(g, p) && Reached(g, p, r, n);
      var path :| IsWalk(g, p, r, path, n);
      WalkOn(g, p, r, path, n, c);
      assert Reached(g, p, r, c);
    }
  }

  /**
   * A clean rule covers the whole closure though no walk enters a local crate:
   * whatever any path from a pure crate reaches is a pure local crate or an
   * allowed dependency.
   */
  lemma {:induction false} CleanCoversTheClosure(g: GraphValue, p: Policy, path: seq<Node>)
    requires Clean(g, p) && |path| > 0 && path[0] in Roots(g, p) && IsPath(g, path)
    ensures Accounted(g, p, path[|path| - 1])
    ensures !AgainstTheRule(g, p, path[|path| - 1])
  {
    if |path| > 1 {
      var last := |path| - 1;
      var front := path[..last];
      assert forall i :: 0 <= i < |front| ==> front[i] == path[i];
      CleanCoversTheClosure(g, p, front);
      assert path[last - 1 + 1] in ChildrenOf(g, path[last - 1]);
      ChildAccounted(g, p, path[last - 1], path[last]);
    }
  }

  /** The rule is clean exactly when it reports no breach. */
  lemma {:induction false} NoBreachIsClean(g: GraphValue, p: Policy)
    ensures Clean(g, p) <==> forall crate, dep :: !Breaches(g, p, Roots(g, p), crate, dep)
  {
    if !Clean(g, p) {
      var r, n :| r in Roots(g, p) && Reached(g, p, r, n) && Forbidden(g, p, n);
      assert Breaches(g, p, Roots(g, p), r.0, n.0);
    }
  }
}
