/**
The dependency graph of `bazel mod graph`: a dump in which a module may be expanded in one place and a stub in
others, the index of expanded nodes by name, and the closure of a module through that index.
*/
module Dependencies {
  /** A node of the dump, with a list of dependencies or without one; a missing name is the empty one. */
  datatype Node =
    | Node(name: string, unexpanded: bool, dependencies: seq<Node>)
    | Bare(name: string, unexpanded: bool)

  function Deps(node: Node): seq<Node> {
    if node.Node? then node.dependencies else []
  }

  predicate Expanded(node: Node) {
    node.name != "" && !node.unexpanded && node.Node?
  }

  /** The nodes of a dump in the order in which the index is built. */
  function Preorder(node: Node): seq<Node>
    decreases node, 1, 0
  {
    [node] + PreorderBelow(node, |Deps(node)|)
  }

  /** The nodes of the first n subtrees. */
  function PreorderBelow(node: Node, n: nat): seq<Node>
    requires n <= |Deps(node)|
    decreases node, 0, n
  {
    if n == 0 then [] else PreorderBelow(node, n - 1) + Preorder(Deps(node)[n - 1])
  }

  lemma PreorderNext(before: seq<Node>, node: Node, n: nat)
    requires n < |Deps(node)|
    ensures before + ([node] + PreorderBelow(node, n)) + Preorder(Deps(node)[n])
         == before + ([node] + PreorderBelow(node, n + 1))
  {
  }

  /** The position of the first expanded node of a name. */
  predicate FirstAt(nodes: seq<Node>, name: string, k: nat) {
    && k < |nodes| && Expanded(nodes[k]) && nodes[k].name == name
    && forall i :: 0 <= i < k && Expanded(nodes[i]) ==> nodes[i].name != name
  }

  /** An index holds, for every name, its first expanded node. */
  ghost predicate IndexOf(index: map<string, Node>, nodes: seq<Node>) {
    forall name :: if name in index then exists k: nat :: FirstAt(nodes, name, k) && nodes[k] == index[name]
                   else forall i :: 0 <= i < |nodes| && Expanded(nodes[i]) ==> nodes[i].name != name
  }

  /** An expanded root is the node of its name, and so is a child whose name is not expanded before it. */
  lemma FirstWins(index: map<string, Node>, root: Node, n: nat)
    requires IndexOf(index, Preorder(root)) && n <= |Deps(root)|
    ensures Expanded(root) ==> root.name in index && index[root.name] == root
    ensures n < |Deps(root)| && Expanded(Deps(root)[n]) && NotYet(root, n, Deps(root)[n].name) ==>
              Deps(root)[n].name in index && index[Deps(root)[n].name] == Deps(root)[n]
  {
    var nodes := Preorder(root);
    if Expanded(root) { OnlyFirst(index, nodes, root.name, 0); }
    if n < |Deps(root)| && Expanded(Deps(root)[n]) && NotYet(root, n, Deps(root)[n].name) {
      var k := 1 + |PreorderBelow(root, n)|;
      ChildFirst(root, n, nodes, k);
      OnlyFirst(index, nodes, nodes[k].name, k);
    }
  }

  lemma ChildFirst(root: Node, n: nat, nodes: seq<Node>, k: nat)
    requires n < |Deps(root)| && Expanded(Deps(root)[n]) && NotYet(root, n, Deps(root)[n].name)
    requires nodes == Preorder(root) && k == 1 + |PreorderBelow(root, n)|
    ensures FirstAt(nodes, Deps(root)[n].name, k) && nodes[k] == Deps(root)[n]
  {
    PreorderCut(root, n, |Deps(root)|);
    assert nodes[k] == Deps(root)[n];
    forall i | 0 <= i < k && Expanded(nodes[i]) ensures nodes[i].name != nodes[k].name {
      if i > 0 {
        assert nodes[i] == PreorderBelow(root, n)[i - 1];
        InSomeChild(root, n, i - 1);
      }
    }
  }

  /** Neither the root nor one of its first n subtrees has an expanded node of that name. */
  predicate NotYet(root: Node, n: nat, name: string)
    requires n <= |Deps(root)|
  {
    && (Expanded(root) ==> root.name != name)
    && forall i :: 0 <= i < n ==> forall x :: x in Preorder(Deps(root)[i]) && Expanded(x) ==> x.name != name
  }

  lemma OnlyFirst(index: map<string, Node>, nodes: seq<Node>, name: string, k: nat)
    requires IndexOf(index, nodes) && FirstAt(nodes, name, k)
    ensures name in index && index[name] == nodes[k]
  {
    if name in index {
      var j: nat :| FirstAt(nodes, name, j) && nodes[j] == index[name];
      assert j == k;
    }
  }

  lemma {:induction false} PreorderCut(root: Node, n: nat, m: nat)
    requires n < m <= |Deps(root)|
    ensures PreorderBelow(root, n) + Preorder(Deps(root)[n]) <= PreorderBelow(root, m)
    decreases m
  {
    if n < m - 1 { PreorderCut(root, n, m - 1); }
  }

  lemma {:induction false} InSomeChild(root: Node, n: nat, i: nat)
    requires n <= |Deps(root)| && i < |PreorderBelow(root, n)|
    ensures exists c :: 0 <= c < n && PreorderBelow(root, n)[i] in Preorder(Deps(root)[c])
    decreases n
  {
    if i < |PreorderBelow(root, n - 1)| { InSomeChild(root, n - 1, i); }
  }

  lemma IndexSame(index: map<string, Node>, nodes: seq<Node>, node: Node)
    requires IndexOf(index, nodes) && (Expanded(node) ==> node.name in index)
    ensures IndexOf(index, nodes + [node])
  {
    forall name | name in index
        ensures exists k: nat :: FirstAt(nodes + [node], name, k) && (nodes + [node])[k] == index[name] {
      var k: nat :| FirstAt(nodes, name, k) && nodes[k] == index[name];
      assert FirstAt(nodes + [node], name, k);
    }
  }

  lemma IndexNew(index: map<string, Node>, nodes: seq<Node>, node: Node)
    requires IndexOf(index, nodes) && Expanded(node) && node.name !in index
    ensures IndexOf(index[node.name := node], nodes + [node])
  {
    var grown := index[node.name := node];
    forall name | name in grown
      ensures exists k: nat :: FirstAt(nodes + [node], name, k) && (nodes + [node])[k] == grown[name]
    {
      if name == node.name {
        assert FirstAt(nodes + [node], name, |nodes|);
      } else {
        var k: nat :| FirstAt(nodes, name, k) && nodes[k] == index[name];
        assert FirstAt(nodes + [node], name, k);
      }
    }
  }

  // ----- reachability -----

  /** The index leads from a module to one that its node depends on. */
  predicate Edge(index: map<string, Node>, a: string, b: string) {
    a in index && b != "" && exists i :: 0 <= i < |Deps(index[a])| && Deps(index[a])[i].name == b
  }

  /** A chain of edges. */
  ghost predicate Chain(index: map<string, Node>, path: seq<string>) {
    |path| >= 2 && forall i, j :: 0 <= i && j == i + 1 && j < |path| ==> Edge(index, path[i], path[j])
  }

  ghost predicate Reaches(index: map<string, Node>, a: string, b: string) {
    exists path :: Chain(index, path) && path[0] == a && path[|path| - 1] == b
  }

  lemma ReachesNext(index: map<string, Node>, a: string, b: string, c: string)
    requires (a == b || Reaches(index, a, b)) && Edge(index, b, c)
    ensures Reaches(index, a, c)
  {
    if a == b {
      assert Chain(index, [a, c]);
    }
    if Reaches(index, a, b) {
      var path :| Chain(index, path) && path[0] == a && path[|path| - 1] == b;
      assert Chain(index, path + [c]);
    }
  }

  /** A set that every edge from it, and from the start, leads into has all that is reachable. */
  lemma {:induction false} ClosedHasAll(index: map<string, Node>, m: string, visited: set<string>, path: seq<string>)
    requires forall a, b :: (a == m || a in visited) && Edge(index, a, b) ==> b in visited
    requires Chain(index, path) && path[0] == m
    ensures path[|path| - 1] in visited
    decreases |path|
  {
    var n := |path| - 1;
    if n > 1 {
      ClosedHasAll(index, m, visited, path[..n]);
    }
    assert Edge(index, path[n - 1], path[n]);
  }

  lemma WalkedAll(index: map<string, Node>, m: string, visited: set<string>)
    requires forall a, b :: (a == m || a in visited) && Edge(index, a, b) ==> b in visited
    requires forall b :: b in visited ==> Reaches(index, m, b)
    ensures forall b :: b in visited <==> Reaches(index, m, b)
  {
    forall b | Reaches(index, m, b) ensures b in visited {
      var path :| Chain(index, path) && path[0] == m && path[|path| - 1] == b;
      ClosedHasAll(index, m, visited, path);
    }
  }

  lemma FewerLeft(all: set<string>, before: set<string>, after: set<string>)
    requires before <= after <= all
    ensures after != before ==> |all - after| < |all - before|
  {
    if after != before {
      assert all - after <= all - before;
      var x :| x in after && x !in before;
      assert all - after <= (all - before) - {x};
      Subset(all - after, (all - before) - {x});
    }
  }

  lemma {:induction false} Subset(a: set<string>, b: set<string>)
    requires a <= b
    ensures |a| <= |b|
  {
    if x :| x in a {
      Subset(a - {x}, b - {x});
    }
  }

  /** All names that edges lead to. */
  ghost function Targets(index: map<string, Node>): set<string> {
    set a, i | a in index && 0 <= i < |Deps(index[a])| :: Deps(index[a])[i].name
  }

  class DependencyGraph {
    var index: map<string, Node>

    constructor (root: Node)
      ensures IndexOf(index, Preorder(root))
    {
      index := map[];
      new;
      BuildIndex(root, []);
      assert [] + Preorder(root) == Preorder(root);
    }

    /** _build_index: the first expanded node of a name stays. */
    method BuildIndex(node: Node, ghost before: seq<Node>)
      requires IndexOf(index, before)
      modifies this
      ensures IndexOf(index, before + Preorder(node))
      decreases node
    {
      if Expanded(node) && node.name !in index {
        IndexNew(index, before, node);
        index := index[node.name := node];
      } else {
        IndexSame(index, before, node);
      }
      var n := 0;
      ghost var nodes := before + [node];
      assert nodes == before + ([node] + PreorderBelow(node, 0));
      while n < |Deps(node)|
        invariant 0 <= n <= |Deps(node)|
        invariant nodes == before + ([node] + PreorderBelow(node, n)) && IndexOf(index, nodes)
      {
        BuildIndex(Deps(node)[n], nodes);
        PreorderNext(before, node, n);
        nodes := nodes + Preorder(Deps(node)[n]);
        n := n + 1;
      }
    }

    /** closure: every module reachable through the index, without the module itself. */
    method Closure(m: string) returns (closure: set<string>)
      ensures forall b :: b in closure <==> b != m && Reaches(index, m, b)
    {
      var visited: set<string> := {};
      var stack := [m];
      while stack != []
        invariant visited <= Targets(index)
        invariant forall b :: b in visited ==> Reaches(index, m, b)
        invariant forall a :: a in stack ==> a == m || a in visited
        invariant forall a, b :: (a == m || a in visited) && a !in stack && Edge(index, a, b) ==> b in visited
        decreases |Targets(index) - visited|, |stack|
      {
        var top := stack[|stack| - 1];
        ghost var before := visited;
        visited, stack := Expand(m, top, visited, stack[..|stack| - 1]);
        FewerLeft(Targets(index), before, visited);
      }
      WalkedAll(index, m, visited);
      closure := visited - {m};
    }

    /** One round of the walk: the unseen dependencies of a module are noted and put on the stack. */
    method Expand(ghost m: string, top: string, visited0: set<string>, stack0: seq<string>)
      returns (visited: set<string>, stack: seq<string>)
      requires visited0 <= Targets(index) && (top == m || top in visited0)
      requires forall b :: b in visited0 ==> Reaches(index, m, b)
      requires forall a :: a in stack0 ==> a == m || a in visited0
      requires forall a, b :: (a == m || a in visited0) && a !in stack0 && a != top && Edge(index, a, b) ==>
          b in visited0
      ensures visited0 <= visited <= Targets(index)
      ensures visited == visited0 ==> stack == stack0
      ensures forall b :: b in visited ==> Reaches(index, m, b)
      ensures forall a :: a in stack ==> a == m || a in visited
      ensures forall a, b :: (a == m || a in visited) && a !in stack && Edge(index, a, b) ==> b in visited
    {
      visited, stack := visited0, stack0;
      if top !in index {
        return;
      }
      var deps := Deps(index[top]);
      var i := 0;
      while i < |deps|
        invariant 0 <= i <= |deps|
        invariant visited0 <= visited <= Targets(index)
        invariant visited == visited0 ==> stack == stack0
        invariant forall b :: b in visited ==> Reaches(index, m, b)
        invariant forall a :: a in stack0 ==> a in stack
        invariant forall a :: a in stack ==> a == m || a in visited
        invariant forall a :: a in visited && a !in visited0 ==> a in stack
        invariant forall k :: 0 <= k < i && deps[k].name != "" ==> deps[k].name in visited
      {
        var name := deps[i].name;
        if name != "" && name !in visited {
          assert Edge(index, top, name);
          ReachesNext(index, m, top, name);
          visited := visited + {name};
          stack := stack + [name];
        }
        i := i + 1;
      }
    }
  }
}
