/** What a dump says about the modules: stubs do not matter as long as every module is expanded somewhere. */
module DependencyDumps {
  import opened Dependencies

  // ----- children are in the dump -----

  lemma {:induction false} BelowHas(node: Node, n: nat, j: nat, x: Node)
    requires j < n <= |Deps(node)| && x in Preorder(Deps(node)[j])
    ensures x in PreorderBelow(node, n)
  {
    if j < n - 1 {
      BelowHas(node, n - 1, j, x);
    }
  }

  lemma {:induction false} BelowFrom(node: Node, n: nat, x: Node) returns (j: nat)
    requires n <= |Deps(node)| && x in PreorderBelow(node, n)
    ensures j < n && x in Preorder(Deps(node)[j])
  {
    if x in PreorderBelow(node, n - 1) {
      j := BelowFrom(node, n - 1, x);
    } else {
      j := n - 1;
    }
  }

  lemma {:induction false} ChildrenInDump(root: Node, x: Node, i: nat)
    requires x in Preorder(root) && i < |Deps(x)|
    ensures Deps(x)[i] in Preorder(root)
    decreases root
  {
    var n := |Deps(root)|;
    if x == root {
      BelowHas(root, n, i, Deps(root)[i]);
    } else {
      var j := BelowFrom(root, n, x);
      ChildrenInDump(Deps(root)[j], x, i);
      BelowHas(root, n, j, Deps(x)[i]);
    }
  }

  // ----- dumps of a graph -----

  /** Modules and the modules they depend on directly. */
  type Graph = map<string, set<string>>

  function DepNames(node: Node): set<string> {
    set i | 0 <= i < |Deps(node)| && Deps(node)[i].name != "" :: Deps(node)[i].name
  }

  /** Where the dump expands a module, it lists its dependencies. */
  ghost predicate Faithful(root: Node, g: Graph) {
    forall x :: x in Preorder(root) && Expanded(x) ==> x.name in g && DepNames(x) == g[x.name]
  }

  /** Every module that occurs is expanded somewhere: what a dump without a depth limit provides. */
  ghost predicate Complete(root: Node) {
    forall x :: x in Preorder(root) && x.name != "" ==> Occurs(root, x.name)
  }

  ghost predicate Occurs(root: Node, name: string) {
    exists y :: y in Preorder(root) && Expanded(y) && y.name == name
  }

  /** Nothing is a stub. */
  ghost predicate Full(root: Node) {
    forall x :: x in Preorder(root) && x.name != "" ==> Expanded(x)
  }

  ghost predicate Depends(g: Graph, a: string, b: string) {
    a in g && b in g[a]
  }

  ghost predicate GraphChain(g: Graph, path: seq<string>) {
    |path| >= 2 && forall i, j :: 0 <= i && j == i + 1 && j < |path| ==> Depends(g, path[i], path[j])
  }

  ghost predicate DependsOn(g: Graph, a: string, b: string) {
    exists path :: GraphChain(g, path) && path[0] == a && path[|path| - 1] == b
  }

  lemma Looked(index: map<string, Node>, root: Node, name: string)
    requires IndexOf(index, Preorder(root))
    ensures name in index <==> Occurs(root, name)
    ensures name in index ==> index[name] in Preorder(root) && Expanded(index[name]) && index[name].name == name
  {
    if name in index {
      var k: nat :| FirstAt(Preorder(root), name, k) && Preorder(root)[k] == index[name];
    }
  }

  lemma EdgesAreDependencies(index: map<string, Node>, root: Node, g: Graph, a: string, b: string)
    requires IndexOf(index, Preorder(root)) && Faithful(root, g)
    ensures Edge(index, a, b) <==> Occurs(root, a) && Depends(g, a, b)
  {
    Looked(index, root, a);
    if a in index {
      assert DepNames(index[a]) == g[a];
    }
  }

  /** A dependency of a module that occurs, occurs. */
  lemma DependencyOccurs(root: Node, g: Graph, a: string, b: string)
    requires Faithful(root, g) && Complete(root) && Occurs(root, a) && Depends(g, a, b)
    ensures Occurs(root, b)
  {
    var y :| y in Preorder(root) && Expanded(y) && y.name == a;
    var i :| 0 <= i < |Deps(y)| && Deps(y)[i].name == b && b != "";
    ChildrenInDump(root, y, i);
  }

  lemma {:induction false} ChainOccurs(root: Node, g: Graph, path: seq<string>, k: nat)
    requires Faithful(root, g) && Complete(root) && GraphChain(g, path) && Occurs(root, path[0]) && k < |path|
    ensures Occurs(root, path[k])
  {
    if k > 0 {
      ChainOccurs(root, g, path, k - 1);
      DependencyOccurs(root, g, path[k - 1], path[k]);
    }
  }

  /** The walk through the index of a dump follows the dependencies of the modules, stubs or not. */
  lemma DumpMeansGraph(index: map<string, Node>, root: Node, g: Graph, m: string, b: string)
    requires IndexOf(index, Preorder(root)) && Faithful(root, g) && Complete(root) && Occurs(root, m)
    ensures Reaches(index, m, b) <==> DependsOn(g, m, b)
  {
    if Reaches(index, m, b) {
      var path :| Chain(index, path) && path[0] == m && path[|path| - 1] == b;
      forall i, j | 0 <= i && j == i + 1 && j < |path| ensures Depends(g, path[i], path[j]) {
        EdgesAreDependencies(index, root, g, path[i], path[j]);
      }
      assert GraphChain(g, path);
    }
    if DependsOn(g, m, b) {
      var path :| GraphChain(g, path) && path[0] == m && path[|path| - 1] == b;
      forall i, j | 0 <= i && j == i + 1 && j < |path| ensures Edge(index, path[i], path[j]) {
        ChainOccurs(root, g, path, i);
        EdgesAreDependencies(index, root, g, path[i], path[j]);
      }
      assert Chain(index, path);
    }
  }

  lemma FullIsComplete(root: Node)
    requires Full(root)
    ensures Complete(root)
  {
  }

  /** A dump with stubs and the fully expanded dump of the same modules give every module the same closure. */
  lemma StubsDoNotMatter(stubbed: Node, full: Node, g: Graph, index: map<string, Node>, index': map<string, Node>,
                         m: string, b: string)
    requires Faithful(stubbed, g) && Faithful(full, g) && Complete(stubbed) && Full(full)
    requires IndexOf(index, Preorder(stubbed)) && IndexOf(index', Preorder(full))
    requires Occurs(stubbed, m) && Occurs(full, m)
    ensures Reaches(index, m, b) <==> Reaches(index', m, b)
  {
    FullIsComplete(full);
    DumpMeansGraph(index, stubbed, g, m, b);
    DumpMeansGraph(index', full, g, m, b);
  }

  /** A chain of dependencies all of whose modules but the last are expanded in the dump. */
  ghost predicate ExpandedChain(root: Node, g: Graph, path: seq<string>) {
    GraphChain(g, path) && forall i :: 0 <= i < |path| - 1 ==> Occurs(root, path[i])
  }

  /**
  For any dump that is right where it expands a module, also one cut off by a depth limit: the walk reaches exactly
  the modules at the end of a chain of expanded ones.
  */
  lemma WalkNeedsExpansion(index: map<string, Node>, root: Node, g: Graph, m: string, b: string)
    requires IndexOf(index, Preorder(root)) && Faithful(root, g)
    ensures Reaches(index, m, b) <==>
            exists path :: ExpandedChain(root, g, path) && path[0] == m && path[|path| - 1] == b
  {
    if Reaches(index, m, b) {
      var path :| Chain(index, path) && path[0] == m && path[|path| - 1] == b;
      forall i, j | 0 <= i && j == i + 1 && j < |path| ensures Occurs(root, path[i]) && Depends(g, path[i], path[j]) {
        EdgesAreDependencies(index, root, g, path[i], path[j]);
      }
      forall i | 0 <= i < |path| - 1 ensures Occurs(root, path[i]) {
        EdgesAreDependencies(index, root, g, path[i], path[i + 1]);
      }
      assert ExpandedChain(root, g, path);
    }
    if path :| ExpandedChain(root, g, path) && path[0] == m && path[|path| - 1] == b {
      forall i, j | 0 <= i && j == i + 1 && j < |path| ensures Edge(index, path[i], path[j]) {
        EdgesAreDependencies(index, root, g, path[i], path[j]);
      }
      assert Chain(index, path);
    }
  }

  lemma LastEdge(index: map<string, Node>, a: string, b: string)
    requires Reaches(index, a, b)
    ensures exists c :: Edge(index, c, b)
  {
    var path :| Chain(index, path) && path[0] == a && path[|path| - 1] == b;
    assert Edge(index, path[|path| - 2], path[|path| - 1]);
  }

  /** In a dump cut off below r, a is only a stub, and the closure of r misses what a depends on. */
  lemma CutOffLoses()
    ensures var stub := Node("a", true, []);
            var root, index := Node("r", false, [stub]), map["r" := Node("r", false, [stub])];
            var g: Graph := map["r" := {"a"}, "a" := {"b"}, "b" := {}];
            && Faithful(root, g) && IndexOf(index, Preorder(root)) && !Complete(root)
            && DependsOn(g, "r", "b") && !Reaches(index, "r", "b")
  {
    var stub := Node("a", true, []);
    var root := Node("r", false, [stub]);
    var index := map["r" := root];
    var g: Graph := map["r" := {"a"}, "a" := {"b"}, "b" := {}];
    assert Preorder(stub) == [stub];
    assert PreorderBelow(root, 1) == PreorderBelow(root, 0) + [stub];
    assert Preorder(root) == [root, stub];
    assert Deps(root) == [stub] && DepNames(root) == {"a"};
    assert FirstAt([root, stub], "r", 0);
    assert stub in Preorder(root);
    assert GraphChain(g, ["r", "a", "b"]);
    if Reaches(index, "r", "b") {
      LastEdge(index, "r", "b");
      assert false;
    }
  }
}
