/**
The intrusive list: a circular doubly linked ring through a sentinel root, whose elements carry the links.
Each operation rewires the pointers as the source does, and is stated on the sequence of elements.
*/
module IntrusiveList {

  class Node {
    /** The sentinels inside list objects; elements proper are derived objects and never sentinels. */
    const isRoot: bool
    var next: Node?
    var prev: Node?

    constructor (isRoot: bool)
      ensures this.isRoot == isRoot && next == null && prev == null
    {
      this.isRoot := isRoot;
      next := null;
      prev := null;
    }

    predicate IsLinked()
      reads this
    {
      next != null
    }

    method Unlink()
      requires IsLinked()
      modifies this
      ensures next == null && prev == null
    {
      next := null;
      prev := null;
    }
  }

  /** A disposer, which may rely on getting an element that is already unlinked; this one records them. */
  class Disposer {
    var seen: seq<Node>

    constructor ()
      ensures seen == []
    {
      seen := [];
    }

    method Dispose(node: Node)
      requires node.next == null && node.prev == null
      modifies this
      ensures seen == old(seen) + [node]
    {
      seen := seen + [node];
    }
  }

  /** Once around the ring: from the root through the elements to the root. */
  ghost function Loop(root: Node, elems: seq<Node>): seq<Node> {
    [root] + elems + [root]
  }

  /** At position i of the loop, next_ and prev_ are inverse to each other. */
  ghost predicate Joined(loop: seq<Node>, i: int)
    requires 0 <= i < |loop| - 1
    reads loop
  {
    loop[i].next == loop[i + 1] && loop[i + 1].prev == loop[i]
  }

  ghost predicate Closed(loop: seq<Node>)
    reads loop
  {
    forall i :: 0 <= i < |loop| - 1 ==> Joined(loop, i)
  }

  ghost predicate Distinct(elems: seq<Node>) {
    forall i, j :: 0 <= i < j < |elems| ==> elems[i] != elems[j]
  }

  /** A ring through one root: the elements are not roots, and next_ and prev_ are inverse all around. */
  ghost predicate Ring(root: Node, elems: seq<Node>)
    reads root, elems
  {
    root.isRoot && (forall x :: x in elems ==> !x.isRoot) && Closed(Loop(root, elems))
  }

  lemma {:induction false} OnePlace(root: Node, elems: seq<Node>, i: nat, j: nat)
    requires Ring(root, elems) && i <= |elems| && j <= |elems| && Loop(root, elems)[i] == Loop(root, elems)[j]
    ensures i == j
    decreases i
  {
    if i > 0 && j > 0 {
      assert Joined(Loop(root, elems), i - 1) && Joined(Loop(root, elems), j - 1);
      OnePlace(root, elems, i - 1, j - 1);
    }
  }

  /** Only the root occurs twice in the loop, at both ends: going back from two places leads to one root. */
  lemma LoopDistinct(root: Node, elems: seq<Node>)
    requires Ring(root, elems)
    ensures forall i, j :: 0 <= i < j < |elems| + 2 && (0 < i || j < |elems| + 1) ==>
              Loop(root, elems)[i] != Loop(root, elems)[j]
  {
    forall i, j | 0 <= i < j < |elems| + 2 && (0 < i || j < |elems| + 1)
      ensures Loop(root, elems)[i] != Loop(root, elems)[j]
    {
      if j <= |elems| && Loop(root, elems)[i] == Loop(root, elems)[j] { OnePlace(root, elems, i, j); }
    }
  }

  lemma AllLinked(root: Node, elems: seq<Node>)
    requires Closed(Loop(root, elems))
    ensures forall x :: x in elems ==> x.IsLinked()
  {
    forall x | x in elems ensures x.IsLinked() {
      var i :| 0 <= i < |elems| && elems[i] == x;
      assert Joined(Loop(root, elems), i + 1);
    }
  }

  lemma ErasedOne(all: seq<Node>, j: nat, i: nat)
    requires j <= i < |all|
    ensures var left := all[..j] + all[i..]; left[..j] + left[j + 1..] == all[..j] + all[i + 1..]
    ensures all[j..i] + [all[i]] == all[j..i + 1]
  {
  }

  /** The elements on which a predicate has the wanted value, in their order. */
  ghost function Select(s: seq<Node>, pred: Node -> bool, want: bool): seq<Node> {
    if s == [] then []
    else Select(s[..|s| - 1], pred, want) + if pred(s[|s| - 1]) == want then [s[|s| - 1]] else []
  }

  lemma SelectNext(all: seq<Node>, pred: Node -> bool, want: bool, i: nat)
    requires i < |all|
    ensures Select(all[..i + 1], pred, want)
         == Select(all[..i], pred, want) + if pred(all[i]) == want then [all[i]] else []
  {
    assert all[..i + 1][..i] == all[..i];
  }

  /** Exactly the wanted elements are selected. */
  lemma {:induction false} SelectWanted(s: seq<Node>, pred: Node -> bool, want: bool)
    ensures forall k :: 0 <= k < |Select(s, pred, want)| ==>
              Select(s, pred, want)[k] in s && pred(Select(s, pred, want)[k]) == want
    ensures forall k :: 0 <= k < |s| && pred(s[k]) == want ==> s[k] in Select(s, pred, want)
  {
    if s != [] {
      var front, t := Select(s[..|s| - 1], pred, want), Select(s, pred, want);
      SelectWanted(s[..|s| - 1], pred, want);
      forall k | 0 <= k < |t| ensures t[k] in s && pred(t[k]) == want {
        if k < |front| {
          assert t[k] == front[k] && front[k] in s[..|s| - 1];
        }
      }
    }
  }

  /** The selection keeps the order: it reads the sequence at increasing positions. */
  lemma {:induction false} SelectOrdered(s: seq<Node>, pred: Node -> bool, want: bool) returns (at: seq<nat>)
    ensures |at| == |Select(s, pred, want)|
    ensures forall i, j :: 0 <= i < j < |at| ==> at[i] < at[j]
    ensures forall i :: 0 <= i < |at| ==> at[i] < |s| && s[at[i]] == Select(s, pred, want)[i]
  {
    if s == [] {
      at := [];
    } else {
      at := SelectOrdered(s[..|s| - 1], pred, want);
      if pred(s[|s| - 1]) == want {
        at := at + [|s| - 1];
      }
    }
  }

  /** What is kept and what is disposed of together are the elements. */
  lemma {:induction false} SelectConserves(s: seq<Node>, pred: Node -> bool)
    ensures multiset(Select(s, pred, true)) + multiset(Select(s, pred, false)) == multiset(s)
  {
    if s != [] {
      var front, x := s[..|s| - 1], s[|s| - 1];
      SelectConserves(front, pred);
      assert s == front + [x];
      assert Select(s, pred, pred(x)) == Select(front, pred, pred(x)) + [x];
      assert Select(s, pred, !pred(x)) == Select(front, pred, !pred(x));
    }
  }

  lemma SelectInside(all: seq<Node>, pred: Node -> bool, i: nat)
    requires i <= |all|
    ensures var left := Select(all[..i], pred, false) + all[i..]; forall k :: 0 <= k < |left| ==> left[k] in all
  {
    var kept := Select(all[..i], pred, false);
    SelectWanted(all[..i], pred, false);
    forall k | 0 <= k < |kept| ensures kept[k] in all {
      assert pred(kept[k]) == false;
      assert kept[k] in all[..i];
    }
  }

  lemma SelectStep(all: seq<Node>, pred: Node -> bool, i: nat)
    requires i < |all|
    ensures var n := |Select(all[..i], pred, false)|;
            var left := Select(all[..i], pred, false) + all[i..];
            var kept := Select(all[..i + 1], pred, false);
            && left[n] == all[i]
            && kept + all[i + 1..] == (if pred(all[i]) then left[..n] + left[n + 1..] else left)
            && |kept| == (if pred(all[i]) then n else n + 1)
    ensures Select(all[..i + 1], pred, true) == Select(all[..i], pred, true) + if pred(all[i]) then [all[i]] else []
  {
    SelectNext(all, pred, false, i);
    SelectNext(all, pred, true, i);
  }

  /** The nodes of a list are neither those of the other list nor among some further ones. */
  ghost predicate Apart(a: List, b: List, others: seq<Node>)
    reads a, b
  {
    forall i :: 0 <= i < |b.elems| + 2 ==>
      var x := Loop(b.root, b.elems)[i]; x != a.root && x !in a.elems && x !in others
  }

  lemma ApartFromAll(a: List, others: seq<Node>)
    requires a.Valid() && forall x :: x in others ==> !x.isRoot && !x.IsLinked()
    ensures forall b: List :: allocated(b) && b.Valid() && b.root != a.root ==> Apart(a, b, others)
  {
    forall b: List | allocated(b) && b.Valid() && b.root != a.root ensures Apart(a, b, others) {
      Exclusive(a, b);
      AllLinked(b.root, b.elems);
    }
  }

  class List {
    const root: Node
    ghost var elems: seq<Node>

    ghost predicate Valid()
      reads this, root, elems
    {
      Ring(root, elems)
    }

    /** The node of an iterator at position k; the end is the root. */
    ghost function Cell(k: nat): Node
      requires k <= |elems|
      reads this
    {
      if k < |elems| then elems[k] else root
    }

    constructor ()
      ensures Valid() && elems == [] && fresh(root)
    {
      var node := new Node(true);
      root := node;
      elems := [];
      new;
      root.next := root;
      root.prev := root;
    }

    predicate Empty()
      requires Valid()
      reads this, root, elems
      ensures Empty() <==> elems == []
    {
      assert Joined(Loop(root, elems), 0);
      root.next == root
    }

    /** insert_node_before. */
    method InsertNodeBefore(node: Node, target: Node, ghost k: nat)
      requires Valid() && !node.isRoot && !node.IsLinked()
      requires k <= |elems| && target == Cell(k)
      modifies this, root, elems, node
      ensures Valid() && elems == old(elems[..k] + [node] + elems[k..])
      ensures forall b: List :: old(allocated(b) && b.Valid()) && b.root != root ==>
          b.Valid() && b.elems == old(b.elems)
    {
      ApartFromAll(this, [node]);
      Rewire(node, target, k);
    }

    method Rewire(node: Node, target: Node, ghost k: nat)
      requires Valid() && !node.isRoot && !node.IsLinked()
      requires k <= |elems| && target == Cell(k)
      modifies this, root, elems, node
      ensures Valid() && elems == old(elems[..k] + [node] + elems[k..])
    {
      ghost var loop := Loop(root, elems);
      LoopDistinct(root, elems);
      AllLinked(root, elems);
      assert Joined(loop, k) && loop[k + 1] == target;
      node.next := target;
      node.prev := target.prev;
      target.prev.next := node;
      target.prev := node;
      elems := elems[..k] + [node] + elems[k..];
      ghost var grown := Loop(root, elems);
      assert grown == loop[..k + 1] + [node] + loop[k + 1..];
      forall i | 0 <= i < |grown| - 1 ensures Joined(grown, i) {
        if i < k {
          assert old(Joined(loop, i));
        } else if i > k + 1 {
          assert old(Joined(loop, i - 1));
        }
      }
    }

    /** The rewiring in remove_and_dispose_node. */
    method TakeOut(node: Node, ghost k: nat)
      requires Valid() && k < |elems| && node == elems[k]
      modifies this, root, elems
      ensures Valid() && elems == old(elems[..k] + elems[k + 1..])
      ensures node.next == null && node.prev == null
    {
      ghost var loop := Loop(root, elems);
      LoopDistinct(root, elems);
      assert Joined(loop, k) && Joined(loop, k + 1) && loop[k + 1] == node;
      node.prev.next := node.next;
      node.next.prev := node.prev;
      node.Unlink();
      elems := elems[..k] + elems[k + 1..];
      ghost var shrunk := Loop(root, elems);
      assert shrunk == loop[..k + 1] + loop[k + 2..];
      forall i | 0 <= i < |shrunk| - 1 ensures Joined(shrunk, i) {
        if i < k {
          assert old(Joined(loop, i));
        } else if i > k {
          assert old(Joined(loop, i + 1));
        }
      }
    }

    /** Taking out the element at a position, and the iterator after it. */
    method Drop(node: Node, disposer: Disposer, ghost k: nat) returns (after: Node)
      requires Valid() && k < |elems| && node == Cell(k)
      modifies this, root, elems, disposer
      ensures Valid() && elems == old(elems[..k] + elems[k + 1..]) && after == Cell(k)
      ensures !node.IsLinked() && disposer.seen == old(disposer.seen) + [node]
    {
      assert Joined(Loop(root, elems), k + 1);
      after := node.next;
      TakeOut(node, k);
      disposer.Dispose(node);
    }

    /** remove_and_dispose_node: the disposer is called after the element has been taken out and unlinked. */
    method RemoveAndDisposeNode(node: Node, disposer: Disposer, ghost k: nat)
      requires Valid() && k < |elems| && node == elems[k]
      modifies this, root, elems, disposer
      ensures Valid() && elems == old(elems[..k] + elems[k + 1..])
      ensures !node.IsLinked() && disposer.seen == old(disposer.seen) + [node]
      ensures forall b: List :: old(allocated(b) && b.Valid()) && b.root != root ==>
          b.Valid() && b.elems == old(b.elems)
    {
      ApartFromAll(this, []);
      TakeOut(node, k);
      disposer.Dispose(node);
    }

    method PushFront(x: Node)
      requires Valid() && !x.isRoot && !x.IsLinked()
      modifies this, root, elems, x
      ensures Valid() && elems == [x] + old(elems)
      ensures forall b: List :: old(allocated(b) && b.Valid()) && b.root != root ==>
          b.Valid() && b.elems == old(b.elems)
    {
      ApartFromAll(this, [x]);
      assert Joined(Loop(root, elems), 0);
      InsertNodeBefore(x, root.next, 0);
    }

    method PushBack(x: Node)
      requires Valid() && !x.isRoot && !x.IsLinked()
      modifies this, root, elems, x
      ensures Valid() && elems == old(elems) + [x]
      ensures forall b: List :: old(allocated(b) && b.Valid()) && b.root != root ==>
          b.Valid() && b.elems == old(b.elems)
    {
      ApartFromAll(this, [x]);
      InsertNodeBefore(x, root, |elems|);
    }

    method PopFrontAndDispose(disposer: Disposer)
      requires Valid() && elems != []
      modifies this, root, elems, disposer
      ensures Valid() && elems == old(elems[1..])
      ensures !old(elems[0]).IsLinked() && disposer.seen == old(disposer.seen + [elems[0]])
      ensures forall b: List :: old(allocated(b) && b.Valid()) && b.root != root ==>
          b.Valid() && b.elems == old(b.elems)
    {
      ApartFromAll(this, []);
      assert Joined(Loop(root, elems), 0);
      RemoveAndDisposeNode(root.next, disposer, 0);
    }

    method PopBackAndDispose(disposer: Disposer)
      requires Valid() && elems != []
      modifies this, root, elems, disposer
      ensures Valid() && elems == old(elems[..|elems| - 1])
      ensures !old(elems[|elems| - 1]).IsLinked() && disposer.seen == old(disposer.seen + [elems[|elems| - 1]])
      ensures forall b: List :: old(allocated(b) && b.Valid()) && b.root != root ==>
          b.Valid() && b.elems == old(b.elems)
    {
      ApartFromAll(this, []);
      assert Joined(Loop(root, elems), |elems|);
      RemoveAndDisposeNode(root.prev, disposer, |elems| - 1);
    }

    /** The loop of clear_and_dispose. */
    method ClearAll(disposer: Disposer)
      requires Valid()
      modifies this, root, elems, disposer
      ensures Valid() && elems == []
      ensures disposer.seen == old(disposer.seen) + old(elems)
      ensures forall j :: 0 <= j < |old(elems)| ==> !old(elems)[j].IsLinked()
    {
      ghost var i := 0;
      while !Empty()
        invariant Valid() && 0 <= i <= |old(elems)| && elems == old(elems)[i..]
        invariant disposer.seen == old(disposer.seen) + old(elems)[..i]
        invariant forall j :: 0 <= j < i ==> !old(elems)[j].IsLinked()
        decreases |elems|
      {
        assert Joined(Loop(root, elems), 0);
        AllLinked(root, elems);
        assert old(elems)[..i + 1] == old(elems)[..i] + [old(elems)[i]];
        var _ := Drop(root.next, disposer, 0);
        i := i + 1;
      }
      assert old(elems)[..i] == old(elems);
    }

    /** clear_and_dispose: every element is disposed of, front to back. */
    method ClearAndDispose(disposer: Disposer)
      requires Valid()
      modifies this, root, elems, disposer
      ensures Valid() && elems == []
      ensures disposer.seen == old(disposer.seen) + old(elems)
      ensures forall x :: x in old(elems) ==> !x.IsLinked()
      ensures forall b: List :: old(allocated(b) && b.Valid()) && b.root != root ==>
          b.Valid() && b.elems == old(b.elems)
    {
      ApartFromAll(this, []);
      ClearAll(disposer);
    }

    /** insert: before the position. */
    method Insert(position: Node, x: Node, ghost k: nat) returns (inserted: Node)
      requires Valid() && !x.isRoot && !x.IsLinked()
      requires k <= |elems| && position == Cell(k)
      modifies this, root, elems, x
      ensures Valid() && elems == old(elems[..k] + [x] + elems[k..]) && inserted == Cell(k)
      ensures forall b: List :: old(allocated(b) && b.Valid()) && b.root != root ==>
          b.Valid() && b.elems == old(b.elems)
    {
      ApartFromAll(this, [x]);
      InsertNodeBefore(x, position, k);
      inserted := x;
    }

    /** The first i elements of a range have been inserted between two parts of the list. */
    ghost predicate Inserting(before: seq<Node>, xs: seq<Node>, i: nat, after: seq<Node>)
      requires i <= |xs|
      reads this, root, elems, xs
    {
      && Valid() && elems == before + xs[..i] + after
      && forall j :: i <= j < |xs| ==> !xs[j].isRoot && !xs[j].IsLinked()
    }

    method InsertNext(position: Node, xs: seq<Node>, i: nat, ghost before: seq<Node>, ghost after: seq<Node>)
      requires i < |xs| && Distinct(xs) && Inserting(before, xs, i, after)
      requires position == if after == [] then root else after[0]
      modifies this, root, elems, xs[i]
      ensures Inserting(before, xs, i + 1, after)
      ensures forall t :: 0 <= t < |elems| ==> elems[t] in old(elems) || elems[t] == xs[i]
    {
      AllLinked(root, elems);
      Rewire(xs[i], position, |before| + i);
    }

    /** The calls of insert in the range form. */
    method InsertEach(position: Node, xs: seq<Node>, ghost before: seq<Node>, ghost after: seq<Node>)
      requires Distinct(xs) && Inserting(before, xs, 0, after) && position == if after == [] then root else after[0]
      modifies this, root, elems, xs
      ensures Inserting(before, xs, |xs|, after)
    {
      var i := 0;
      while i < |xs|
        invariant 0 <= i <= |xs| && Inserting(before, xs, i, after)
        invariant forall t :: 0 <= t < |elems| ==> elems[t] in old(elems) || elems[t] in xs
      {
        InsertNext(position, xs, i, before, after);
        i := i + 1;
      }
    }

    /** The range form of insert: the range, in its order, before the position. */
    method InsertRange(position: Node, xs: seq<Node>, ghost k: nat) returns (first: Node)
      requires Valid() && Distinct(xs) && (forall x :: x in xs ==> !x.isRoot && !x.IsLinked())
      requires k <= |elems| && position == Cell(k)
      modifies this, root, elems, xs
      ensures Valid() && elems == old(elems[..k]) + xs + old(elems[k..]) && first == Cell(k)
      ensures forall b: List :: old(allocated(b) && b.Valid()) && b.root != root ==>
          b.Valid() && b.elems == old(b.elems)
    {
      ApartFromAll(this, xs);
      assert elems[..k] + xs[..0] + elems[k..] == elems;
      assert forall j :: 0 <= j < |xs| ==> xs[j] in xs;
      InsertEach(position, xs, elems[..k], elems[k..]);
      assert xs[..|xs|] == xs;
      first := if xs == [] then position else xs[0];
    }

    /** erase_and_dispose: the iterator after the erased element. */
    method EraseAndDispose(position: Node, disposer: Disposer, ghost k: nat) returns (after: Node)
      requires Valid() && k < |elems| && position == Cell(k)
      modifies this, root, elems, disposer
      ensures Valid() && elems == old(elems[..k] + elems[k + 1..]) && after == Cell(k)
      ensures !position.IsLinked() && disposer.seen == old(disposer.seen) + [position]
      ensures forall b: List :: old(allocated(b) && b.Valid()) && b.root != root ==>
          b.Valid() && b.elems == old(b.elems)
    {
      ApartFromAll(this, []);
      after := Drop(position, disposer, k);
    }

    lemma CellsDiffer(j: nat, k: nat)
      requires Valid() && j <= |elems| && k <= |elems| && j != k
      ensures Cell(j) != Cell(k)
    {
      var loop := Loop(root, elems);
      assert Cell(j) == loop[j + 1] && Cell(k) == loop[k + 1];
      LoopDistinct(root, elems);
    }

    /** Of the elements from j to k, those before i have been erased. */
    ghost predicate Erasing(all: seq<Node>, j: nat, i: nat, k: nat, at: Node, last: Node)
      requires j <= i <= k <= |all|
      reads this, root, elems, all
    {
      && Valid() && elems == all[..j] + all[i..] && (forall x :: x in all ==> !x.isRoot)
      && at == Cell(j) && last == Cell(j + k - i)
      && (forall m :: j <= m < i ==> !all[m].IsLinked())
    }

    method EraseNext(at: Node, last: Node, disposer: Disposer, ghost all: seq<Node>, ghost j: nat, ghost i: nat,
        ghost k: nat)
      returns (next: Node)
      requires j <= i < k <= |all| && Erasing(all, j, i, k, at, last)
      modifies this, root, elems, disposer
      ensures Erasing(all, j, i + 1, k, next, last) && disposer.seen == old(disposer.seen) + [all[i]]
      ensures forall x :: x in elems ==> x in old(elems)
    {
      ErasedOne(all, j, i);
      AllLinked(root, elems);
      next := Drop(at, disposer, j);
    }

    lemma NotThereYet(all: seq<Node>, j: nat, i: nat, k: nat, at: Node, last: Node)
      requires j <= i <= k <= |all| && Erasing(all, j, i, k, at, last)
      ensures at == last <==> i == k
    {
      if i != k { CellsDiffer(j, j + k - i); }
    }

    /** The loop of the range form of erase_and_dispose. */
    method EraseWhile(first: Node, last: Node, disposer: Disposer, ghost j: nat, ghost k: nat) returns (after: Node)
      requires Valid() && j <= k <= |elems| && first == Cell(j) && last == Cell(k)
      modifies this, root, elems, disposer
      ensures Erasing(old(elems), j, k, k, after, last)
      ensures disposer.seen == old(disposer.seen) + old(elems[j..k])
    {
      after := first;
      ghost var all, i := elems, j;
      assert all[..j] + all[j..] == all;
      NotThereYet(all, j, i, k, after, last);
      while after != last
        invariant j <= i <= k && Erasing(all, j, i, k, after, last) && (after == last <==> i == k)
        invariant disposer.seen == old(disposer.seen) + all[j..i]
        invariant forall x :: x in elems ==> x in all
        decreases k - i
      {
        ErasedOne(all, j, i);
        after := EraseNext(after, last, disposer, all, j, i, k);
        i := i + 1;
        NotThereYet(all, j, i, k, after, last);
      }
    }

    /** The range form of erase_and_dispose. */
    method EraseRangeAndDispose(first: Node, last: Node, disposer: Disposer, ghost j: nat,
        ghost k: nat) returns (after: Node)
      requires Valid() && j <= k <= |elems| && first == Cell(j) && last == Cell(k)
      modifies this, root, elems, disposer
      ensures Valid() && elems == old(elems[..j] + elems[k..]) && after == Cell(j)
      ensures disposer.seen == old(disposer.seen + elems[j..k])
      ensures forall x :: x in old(elems[j..k]) ==> !x.IsLinked()
      ensures forall b: List :: old(allocated(b) && b.Valid()) && b.root != root ==>
          b.Valid() && b.elems == old(b.elems)
    {
      ApartFromAll(this, []);
      after := EraseWhile(first, last, disposer, j, k);
    }

    /** One round of remove_and_dispose_if. */
    method RemoveIfStep(first: Node, pred: Node -> bool, disposer: Disposer, ghost n: nat) returns (next: Node)
      requires Valid() && n < |elems| && first == Cell(n)
      modifies this, root, elems, disposer
      ensures Valid()
      ensures elems == if pred(first) then old(elems[..n] + elems[n + 1..]) else old(elems)
      ensures pred(first) ==> next == Cell(n) && !first.IsLinked() && disposer.seen == old(disposer.seen) + [first]
      ensures !pred(first) ==> next == Cell(n + 1) && disposer.seen == old(disposer.seen)
    {
      if pred(first) {
        next := Drop(first, disposer, n);
      } else {
        assert Joined(Loop(root, elems), n + 1);
        next := first.next;
      }
    }

    /** The first i elements have been sifted, the others are still to come. */
    ghost predicate Sifted(all: seq<Node>, pred: Node -> bool, i: nat)
      requires i <= |all|
      reads this, root, elems, all
    {
      && Valid() && (forall x :: x in all ==> !x.isRoot)
      && elems == Select(all[..i], pred, false) + all[i..]
      && forall m :: 0 <= m < i && pred(all[m]) ==> !all[m].IsLinked()
    }

    /** The loop of remove_and_dispose_if has come to position i. */
    ghost predicate Sifting(all: seq<Node>, pred: Node -> bool, i: nat, first: Node, seen0: seq<Node>,
        disposer: Disposer)
      requires i <= |all|
      reads this, root, elems, all, disposer
    {
      && Sifted(all, pred, i) && first == Cell(|Select(all[..i], pred, false)|) && (first == root <==> i == |all|)
      && disposer.seen == seen0 + Select(all[..i], pred, true)
    }

    method Sift(first: Node, pred: Node -> bool, disposer: Disposer,
                ghost all: seq<Node>, ghost i: nat, ghost seen0: seq<Node>)
      returns (next: Node)
      requires i < |all| && Sifting(all, pred, i, first, seen0, disposer)
      modifies this, root, all, disposer
      ensures Sifting(all, pred, i + 1, next, seen0, disposer)
    {
      SelectStep(all, pred, i);
      SelectInside(all, pred, i);
      AllLinked(root, elems);
      next := RemoveIfStep(first, pred, disposer, |Select(all[..i], pred, false)|);
    }

    lemma SiftBegins(pred: Node -> bool, disposer: Disposer)
      requires Valid()
      ensures root.next != null && Sifting(elems, pred, 0, root.next, disposer.seen, disposer)
    {
      assert Joined(Loop(root, elems), 0);
      assert elems[..0] == [] && elems[0..] == elems;
    }

    lemma SiftEnds(all: seq<Node>, pred: Node -> bool, first: Node, seen0: seq<Node>, disposer: Disposer)
      requires Sifting(all, pred, |all|, first, seen0, disposer)
      ensures elems == Select(all, pred, false) && disposer.seen == seen0 + Select(all, pred, true)
      ensures forall m :: 0 <= m < |all| && pred(all[m]) ==> !all[m].IsLinked()
    {
      assert all[..|all|] == all;
    }

    /** The loop of remove_and_dispose_if. */
    method SiftAll(pred: Node -> bool, disposer: Disposer)
      requires Valid()
      modifies this, root, elems, disposer
      ensures Valid() && elems == Select(old(elems), pred, false)
      ensures disposer.seen == old(disposer.seen) + Select(old(elems), pred, true)
      ensures forall m :: 0 <= m < |old(elems)| && pred(old(elems)[m]) ==> !old(elems)[m].IsLinked()
    {
      SiftBegins(pred, disposer);
      var first: Node := root.next;
      ghost var all, i, seen0 := elems, 0, disposer.seen;
      while first != root
        invariant 0 <= i <= |all| && Sifting(all, pred, i, first, seen0, disposer)
        decreases |all| - i
      {
        first := Sift(first, pred, disposer, all, i, seen0);
        i := i + 1;
      }
      SiftEnds(all, pred, first, seen0, disposer);
    }

    /**
    remove_and_dispose_if: what satisfies the predicate goes to the disposer, in order, and the rest stays in
    order.
    */
    method RemoveAndDisposeIf(pred: Node -> bool, disposer: Disposer)
      requires Valid()
      modifies this, root, elems, disposer
      ensures Valid() && elems == Select(old(elems), pred, false)
      ensures disposer.seen == old(disposer.seen) + Select(old(elems), pred, true)
      ensures forall x :: x in old(elems) && pred(x) ==> !x.IsLinked()
      ensures forall b: List :: old(allocated(b) && b.Valid()) && b.root != root ==>
          b.Valid() && b.elems == old(b.elems)
    {
      ApartFromAll(this, []);
      SiftAll(pred, disposer);
    }

    // ----- transfer of ownership -----

    /** The pointer part of the move constructor of a linked element. */
    static method Replace(from: Node, to: Node, ghost owner: List, ghost k: nat)
      requires owner.Valid() && k < |owner.elems| && owner.elems[k] == from && !to.isRoot && !to.IsLinked()
      modifies owner, owner.root, owner.elems, to
      ensures owner.Valid() && owner.elems == old(owner.elems)[k := to] && from.next == null && from.prev == null
    {
      ghost var root, elems := owner.root, owner.elems;
      ghost var loop := Loop(root, elems);
      LoopDistinct(root, elems);
      AllLinked(root, elems);
      assert Joined(loop, k) && Joined(loop, k + 1) && loop[k + 1] == from;
      to.next := from.next;
      to.next.prev := to;
      to.prev := from.prev;
      to.prev.next := to;
      from.Unlink();
      owner.elems := elems[k := to];
      ghost var moved := Loop(root, owner.elems);
      assert moved == loop[k + 1 := to];
      forall i | 0 <= i < |moved| - 1 ensures Joined(moved, i) {
        assert old(Joined(loop, i));
      }
    }

    /** The move constructor of an element: the new element takes the place of the old one in its list. */
    static method MoveElement(from: Node, ghost owner: List, ghost k: nat) returns (to: Node)
      requires !from.isRoot && owner.Valid() && (!from.IsLinked() ==> from.prev == null)
      requires from.IsLinked() ==> k < |owner.elems| && owner.elems[k] == from
      modifies from, owner, owner.root, owner.elems
      ensures fresh(to) && !to.isRoot && owner.Valid() && from.next == null && from.prev == null
      ensures owner.elems == if old(from.IsLinked()) then old(owner.elems)[k := to] else old(owner.elems)
      ensures !old(from.IsLinked()) ==> to.next == null && to.prev == null
      ensures forall b: List :: old(allocated(b) && b.Valid()) && b.root != owner.root ==>
                b.Valid() && b.elems == old(b.elems)
    {
      ApartFromAll(owner, if from.IsLinked() then [] else [from]);
      to := new Node(false);
      if from.IsLinked() {
        Replace(from, to, owner, k);
      }
    }

    /** The pointer part of the move assignment, after this list was emptied. */
    method TakeOver(from: List)
      requires Valid() && from.Valid() && from != this && from.root != root && elems == [] && from.elems != []
      modifies this, root, from, from.root, from.elems
      ensures Valid() && from.Valid() && elems == old(from.elems) && from.elems == []
    {
      ghost var loop, n := Loop(from.root, from.elems), |from.elems|;
      assert Joined(loop, 0) && Joined(loop, n);
      LoopDistinct(from.root, from.elems);
      root.prev := from.root.prev;
      root.prev.next := root;
      root.next := from.root.next;
      root.next.prev := root;
      from.root.next := from.root;
      from.root.prev := from.root;
      elems := from.elems;
      from.elems := [];
      ghost var taken := Loop(root, elems);
      forall i | 0 <= i < |taken| - 1 ensures Joined(taken, i) {
        assert old(Joined(loop, i));
      }
    }

    /** The move assignment from another list. */
    method Assign(from: List)
      requires Valid() && from.Valid() && from != this && from.root != root
      modifies this, root, elems, from, from.root, from.elems
      ensures Valid() && from.Valid() && elems == old(from.elems) && from.elems == []
      ensures forall x :: x in old(elems) ==> !x.IsLinked()
    {
      Exclusive(this, from);
      var disposer := new Disposer();
      ClearAll(disposer);
      if !from.Empty() {
        TakeOver(from);
      }
    }

    /** The move assignment: what this list held is unlinked, and it holds what the other list held. */
    method MoveAssign(from: List)
      requires Valid() && from.Valid() && (from != this ==> from.root != root)
      modifies this, root, elems, from, from.root, from.elems
      ensures Valid() && from.Valid() && elems == old(from.elems)
      ensures from != this ==> from.elems == [] && forall x :: x in old(elems) ==> !x.IsLinked()
      ensures forall b: List :: old(allocated(b) && b.Valid()) && b.root != root && b.root != from.root ==>
                b.Valid() && b.elems == old(b.elems)
    {
      if this == from {
        return;
      }
      ApartFromAll(this, []);
      ApartFromAll(from, []);
      Assign(from);
    }

    /** The move constructor. */
    constructor Move(from: List)
      requires from.Valid()
      modifies from, from.root, from.elems
      ensures Valid() && from.Valid() && fresh(root) && elems == old(from.elems) && from.elems == []
    {
      var node := new Node(true);
      root := node;
      elems := [];
      new;
      root.next := root;
      root.prev := root;
      Assign(from);
    }

    /** The three moves of swap. */
    method Exchange(x: List)
      requires Valid() && x.Valid() && x != this && x.root != root
      modifies this, root, elems, x, x.root, x.elems
      ensures Valid() && x.Valid() && elems == old(x.elems) && x.elems == old(elems)
    {
      Exclusive(this, x);
      var temporary := new List.Move(x);
      x.Assign(this);
      Assign(temporary);
    }

    /** swap: three moves through a temporary list. */
    method Swap(x: List)
      requires Valid() && x.Valid() && (x != this ==> x.root != root)
      modifies this, root, elems, x, x.root, x.elems
      ensures Valid() && x.Valid() && elems == old(x.elems) && x.elems == old(elems)
      ensures forall b: List :: old(allocated(b) && b.Valid()) && b.root != root && b.root != x.root ==>
                b.Valid() && b.elems == old(b.elems)
    {
      if this == x {
        return;
      }
      ApartFromAll(this, []);
      ApartFromAll(x, []);
      Exchange(x);
    }
  }

  lemma {:induction false} Meet(a: List, b: List, i: nat, j: nat)
    requires a.Valid() && b.Valid() && i <= |a.elems| && j <= |b.elems|
    requires Loop(a.root, a.elems)[i] == Loop(b.root, b.elems)[j]
    ensures a.root == b.root
    decreases i
  {
    if i > 0 && j > 0 {
      assert Joined(Loop(a.root, a.elems), i - 1) && Joined(Loop(b.root, b.elems), j - 1);
      Meet(a, b, i - 1, j - 1);
    }
  }

  /** Two lists share no node: an element is linked in one list at most, because its neighbours lead to one root. */
  lemma Exclusive(a: List, b: List)
    requires a.Valid() && b.Valid() && a.root != b.root
    ensures forall i, j :: 0 <= i < |a.elems| && 0 <= j < |b.elems| ==> a.elems[i] != b.elems[j]
    ensures a.root !in b.elems && b.root !in a.elems
  {
    forall i, j | 0 <= i < |a.elems| && 0 <= j < |b.elems| ensures a.elems[i] != b.elems[j] {
      if a.elems[i] == b.elems[j] {
        Meet(a, b, i + 1, j + 1);
      }
    }
  }
}
