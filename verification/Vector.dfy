/**
The fixed-capacity vector: raw storage from an allocator, elements constructed and destroyed in it, and vectors
that hand their storage to each other. The allocator accepts only what is right for a storage or a slot at that
moment, so every element and every allocation ends exactly once.
*/
module Vector {
  import opened Common

  type Elem = int

  /** An allocation: how many elements it has room for, and the slots that hold an element now. */
  datatype Block = Block(capacity: nat, slots: map<nat, Elem>)

  /** An address at which an element can be constructed. */
  datatype Slot = Slot(id: nat, i: nat)

  /** An allocation, or a release, with its size. */
  datatype Extent = Extent(id: nat, n: nat)

  /** Everything that an allocator was ever asked to do. */
  datatype Log = Log(constructed: multiset<Slot>, destroyed: multiset<Slot>,
                     allocations: multiset<Extent>, releases: multiset<Extent>)

  ghost function Live(blocks: map<nat, Block>, x: Slot): nat {
    if x.id in blocks && x.i in blocks[x.id].slots then 1 else 0
  }

  ghost function Held(blocks: map<nat, Block>, x: Extent): nat {
    if x.id in blocks && blocks[x.id].capacity == x.n then 1 else 0
  }

  /** Addresses are handed out once, in order. */
  ghost predicate HandedOutOnce(next: nat, allocations: multiset<Extent>) {
    && (forall x: Extent {:trigger allocations[x]} :: allocations[x] <= 1 && (x.id >= next ==> allocations[x] == 0))
    && (forall x: Extent, y: Extent {:trigger allocations[x], allocations[y]} ::
          allocations[x] > 0 && allocations[y] > 0 && x.id == y.id ==> x == y)
  }

  /** What was constructed is destroyed or still there, and what was allocated is released or still held. */
  ghost predicate Accounts(blocks: map<nat, Block>, next: nat, log: Log) {
    && (forall x: Slot {:trigger Live(blocks, x)} :: log.constructed[x] == log.destroyed[x] + Live(blocks, x))
    && (forall x: Extent {:trigger Held(blocks, x)} :: log.allocations[x] == log.releases[x] + Held(blocks, x))
    && HandedOutOnce(next, log.allocations)
  }

  lemma SameLive(blocks: map<nat, Block>, next: nat, log: Log, log': Log, blocks': map<nat, Block>, s: Slot, dead: bool)
    requires Accounts(blocks, next, log)
    requires forall x: Extent :: Held(blocks', x) == Held(blocks, x)
    requires log' == if dead then log.(destroyed := log.destroyed + multiset{s})
                     else log.(constructed := log.constructed + multiset{s})
    requires forall x: Slot :: Live(blocks', x) == if x == s then (if dead then 0 else 1) else Live(blocks, x)
    requires Live(blocks, s) == if dead then 1 else 0
    ensures Accounts(blocks', next, log')
  {
    forall x: Slot ensures log'.constructed[x] == log'.destroyed[x] + Live(blocks', x) {
      assert log.constructed[x] == log.destroyed[x] + Live(blocks, x);
    }
    forall x: Extent ensures log'.allocations[x] == log'.releases[x] + Held(blocks', x) {
      assert log.allocations[x] == log.releases[x] + Held(blocks, x);
    }
  }

  class Allocator {
    var blocks: map<nat, Block>
    var next: nat
    ghost var log: Log

    ghost predicate Valid()
      reads this
    {
      (forall id :: id in blocks ==> id < next) && Accounts(blocks, next, log)
    }

    constructor ()
      ensures Valid() && blocks == map[]
    {
      blocks := map[];
      next := 0;
      log := Log(multiset{}, multiset{}, multiset{}, multiset{});
    }

    /** An address that was never handed out before. */
    method Allocate(n: nat) returns (id: nat)
      requires Valid()
      modifies this
      ensures Valid() && id == old(next) && id !in old(blocks) && blocks == old(blocks)[id := Block(n, map[])]
      ensures log == old(log).(allocations := old(log).allocations + multiset{Extent(id, n)})
    {
      id := next;
      next := next + 1;
      blocks := blocks[id := Block(n, map[])];
      log := log.(allocations := log.allocations + multiset{Extent(id, n)});
      forall x: Slot ensures log.constructed[x] == log.destroyed[x] + Live(blocks, x) {
        assert Live(blocks, x) == Live(old(blocks), x);
      }
      forall x: Extent ensures log.allocations[x] == log.releases[x] + Held(blocks, x) {
        assert old(log).allocations[x] == old(log).releases[x] + Held(old(blocks), x);
      }
    }

    method Construct(id: nat, i: nat, x: Elem)
      requires Valid() && id in blocks && i < blocks[id].capacity && i !in blocks[id].slots
      modifies this`blocks, this`log
      ensures Valid() && log == old(log).(constructed := old(log).constructed + multiset{Slot(id, i)})
      ensures blocks == old(blocks)[id := old(blocks)[id].(slots := old(blocks)[id].slots[i := x])]
    {
      blocks := blocks[id := blocks[id].(slots := blocks[id].slots[i := x])];
      log := log.(constructed := log.constructed + multiset{Slot(id, i)});
      SameLive(old(blocks), next, old(log), log, blocks, Slot(id, i), false);
    }

    method Destroy(id: nat, i: nat)
      requires Valid() && id in blocks && i in blocks[id].slots
      modifies this`blocks, this`log
      ensures Valid() && log == old(log).(destroyed := old(log).destroyed + multiset{Slot(id, i)})
      ensures blocks == old(blocks)[id := old(blocks)[id].(slots := old(blocks)[id].slots - {i})]
    {
      blocks := blocks[id := blocks[id].(slots := blocks[id].slots - {i})];
      log := log.(destroyed := log.destroyed + multiset{Slot(id, i)});
      SameLive(old(blocks), next, old(log), log, blocks, Slot(id, i), true);
    }

    /** Only an allocation that is still held, without elements, and with the size it was asked for. */
    method Deallocate(id: nat, n: nat)
      requires Valid() && id in blocks && n == blocks[id].capacity && blocks[id].slots == map[]
      modifies this`blocks, this`log
      ensures Valid() && blocks == old(blocks) - {id}
      ensures log == old(log).(releases := old(log).releases + multiset{Extent(id, n)})
    {
      blocks := blocks - {id};
      log := log.(releases := log.releases + multiset{Extent(id, n)});
      forall x: Slot ensures log.constructed[x] == log.destroyed[x] + Live(blocks, x) {
        assert Live(blocks, x) == Live(old(blocks), x);
      }
      forall x: Extent ensures log.allocations[x] == log.releases[x] + Held(blocks, x) {
        assert old(log).allocations[x] == old(log).releases[x] + Held(old(blocks), x);
      }
    }
  }

  /** A block with room for `capacity` elements, of which the first `size` are there. */
  ghost predicate Filled(b: Block, size: nat, capacity: nat) {
    b.capacity == capacity && size <= capacity && forall i :: i in b.slots <==> 0 <= i < size
  }

  ghost function Contents(b: Block, size: nat, capacity: nat): seq<Elem>
    requires Filled(b, size, capacity)
  {
    seq(size, i requires 0 <= i < size => b.slots[i])
  }

  class NonRelocatableVector {
    var storage: Option<nat>
    var alloc: Allocator
    var size: nat
    var capacity: nat

    /** A vector that was moved from has no storage, and keeps the size and capacity it had. */
    ghost predicate Valid()
      reads this, alloc
    {
      alloc.Valid() && (storage.Some? ==>
          storage.value in alloc.blocks && Filled(alloc.blocks[storage.value], size, capacity))
    }

    ghost function Holds(): Hold
      reads this
    {
      Hold(alloc, storage, size, capacity)
    }

    ghost function Elements(): seq<Elem>
      requires Valid() && storage.Some?
      reads this, alloc
    {
      Contents(alloc.blocks[storage.value], size, capacity)
    }

    constructor (n: nat, a: Allocator)
      requires a.Valid()
      modifies a
      ensures Valid() && alloc == a && storage.Some? && capacity == n && Elements() == []
      ensures storage.value == old(a.next) && a.blocks == old(a.blocks)[storage.value := Block(n, map[])]
    {
      var id := a.Allocate(n);
      storage := Some(id);
      alloc := a;
      size := 0;
      capacity := n;
    }

    /** What the copy loop reads through the source's iterator at position i: None without storage, or past its end. */
    ghost function ReadFrom(i: nat): Option<Elem>
      reads this, alloc
    {
      if storage.Some? && storage.value in alloc.blocks && i in alloc.blocks[storage.value].slots
      then Some(alloc.blocks[storage.value].slots[i])
      else None
    }

    /** The copy constructor, for the vectors whose elements can be read: see CopyReads. */
    constructor Copy(other: NonRelocatableVector)
      requires other.Valid() && (other.storage.Some? || other.size == 0)
      modifies other.alloc
      ensures Valid() && alloc == other.alloc && storage.Some? && capacity == other.capacity && size == other.size
      ensures storage.value == old(other.alloc.next) && other.Valid()
      ensures forall i: nat :: i < size ==> old(other.ReadFrom(i)) == Some(Elements()[i])
      ensures other.storage.Some? ==> Elements() == other.Elements() == old(other.Elements())
      ensures alloc.blocks == old(other.alloc.blocks)[storage.value := alloc.blocks[storage.value]]
    {
      alloc := other.alloc;
      size := other.size;
      capacity := other.capacity;
      storage := None;
      new;
      var id := alloc.Allocate(capacity);
      if size > 0 {
        CopySlots(alloc, other.storage.value, id, size);
      }
      storage := Some(id);
    }

    /** The loop of the copy constructor: slot by slot into a fresh block. */
    static method CopySlots(a: Allocator, from: nat, to: nat, n: nat)
      requires a.Valid() && from in a.blocks && to in a.blocks && from != to
      requires n <= a.blocks[to].capacity && a.blocks[to].slots == map[]
      requires forall k :: 0 <= k < n ==> k in a.blocks[from].slots
      modifies a`blocks, a`log
      ensures a.Valid() && to in a.blocks && a.blocks == old(a.blocks)[to := a.blocks[to]]
      ensures Filled(a.blocks[to], n, old(a.blocks)[to].capacity)
      ensures forall k :: 0 <= k < n ==> a.blocks[to].slots[k] == old(a.blocks)[from].slots[k]
    {
      var i := 0;
      while i < n
        invariant 0 <= i <= n && a.Valid() && to in a.blocks && a.blocks == old(a.blocks)[to := a.blocks[to]]
        invariant Filled(a.blocks[to], i, old(a.blocks)[to].capacity)
        invariant forall k :: 0 <= k < i ==> a.blocks[to].slots[k] == old(a.blocks)[from].slots[k]
      {
        a.Construct(to, i, a.blocks[from].slots[i]);
        i := i + 1;
      }
    }

    /** The move constructor: the storage, with its elements, changes hands. */
    constructor Move(other: NonRelocatableVector)
      requires other.Valid()
      modifies other`storage
      ensures Valid() && other.Valid() && storage == old(other.storage) && alloc == other.alloc
      ensures size == other.size && capacity == other.capacity && other.storage == None
      ensures storage.Some? ==> Elements() == old(other.Elements())
    {
      storage := other.storage;
      alloc := other.alloc;
      size := other.size;
      capacity := other.capacity;
      new;
      other.storage := None;
    }

    /** The move assignment: the two vectors exchange what they hold. */
    method MoveAssign(other: NonRelocatableVector)
      requires Valid() && other.Valid()
      modifies this, other
      ensures Valid() && other.Valid() && Holds() == old(other.Holds()) && other.Holds() == old(Holds())
      ensures storage.Some? ==> Elements() == old(other.Elements())
      ensures other.storage.Some? ==> other.Elements() == old(Elements())
    {
      Exchange(other);
    }

    /** The body of the move assignment, on what the vectors hold. */
    method Exchange(other: NonRelocatableVector)
      modifies this, other
      ensures Holds() == old(other.Holds()) && other.Holds() == old(Holds())
    {
      if this != other {
        Swap(other);
      }
    }

    method Swap(other: NonRelocatableVector)
      requires this != other
      modifies this, other
      ensures storage == old(other.storage) && alloc == old(other.alloc) && size == old(other.size)
          && capacity == old(other.capacity)
      ensures other.storage == old(storage) && other.alloc == old(alloc) && other.size == old(size)
          && other.capacity == old(capacity)
    {
      size, other.size := other.size, size;
      alloc, other.alloc := other.alloc, alloc;
      storage, other.storage := other.storage, storage;
      capacity, other.capacity := other.capacity, capacity;
    }

    /** emplace_back: the elements that were there stay where they are. */
    method EmplaceBack(x: Elem)
      requires Valid() && storage.Some? && size < capacity
      modifies this`size, alloc`blocks, alloc`log
      ensures Valid() && Elements() == old(Elements()) + [x]
      ensures alloc.blocks == old(alloc.blocks)[storage.value := alloc.blocks[storage.value]]
    {
      ConstructNext(x);
    }

    /** The body of emplace_back, on the block. */
    method ConstructNext(x: Elem)
      requires Valid() && storage.Some? && size < capacity
      modifies this`size, alloc`blocks, alloc`log
      ensures Valid() && size == old(size) + 1 && Elements() == old(Elements()) + [x]
      ensures var b := old(alloc.blocks)[storage.value];
              alloc.blocks == old(alloc.blocks)[storage.value := b.(slots := b.slots[old(size) := x])]
    {
      alloc.Construct(storage.value, size, x);
      size := size + 1;
    }

    /** The destructor: every element is destroyed, and the allocation released. */
    method Destruct()
      requires Valid()
      modifies alloc`blocks, alloc`log
      ensures alloc.Valid()
      ensures alloc.blocks == if storage.Some? then old(alloc.blocks) - {storage.value} else old(alloc.blocks)
    {
      if storage.None? {
        return;
      }
      var id, i := storage.value, 0;
      while i < size
        invariant 0 <= i <= size
        invariant alloc.Valid() && id in alloc.blocks && alloc.blocks == old(alloc.blocks)[id := alloc.blocks[id]]
        invariant alloc.blocks[id].capacity == capacity && forall k :: k in alloc.blocks[id].slots <==> i <= k < size
      {
        alloc.Destroy(id, i);
        i := i + 1;
      }
      alloc.Deallocate(id, capacity);
    }
  }

  // ----- all vectors together -----

  /** What a vector holds. */
  datatype Hold = Hold(alloc: Allocator, storage: Option<nat>, size: nat, capacity: nat) {
    ghost predicate Is(a: Allocator, id: nat) {
      alloc == a && storage == Some(id)
    }
  }

  /** The vectors of a program with what they hold, and the allocators with the blocks they have given out. */
  datatype Memory = Memory(vectors: map<NonRelocatableVector, Hold>, heaps: map<Allocator, map<nat, Block>>)

  ghost function Put(blocks: map<nat, Block>, id: nat, b: Block): map<nat, Block> {
    blocks[id := b]
  }

  /** The storage that a vector holds exists, and is filled as far as the vector says. */
  ghost predicate Fits(m: Memory, h: Hold) {
    && h.alloc in m.heaps
    && (h.storage.Some? ==>
          && h.storage.value in m.heaps[h.alloc]
          && Filled(m.heaps[h.alloc][h.storage.value], h.size, h.capacity))
  }

  ghost predicate HasOwner(m: Memory, a: Allocator, id: nat) {
    exists v :: v in m.vectors && m.vectors[v].Is(a, id)
  }

  ghost predicate Apart(h: Hold, k: Hold) {
    h.storage.Some? && k.storage.Some? && h.alloc == k.alloc ==> h.storage != k.storage
  }

  /** No storage has two owners, and every block has one. */
  ghost predicate Exact(m: Memory) {
    AllFit(m) && AllApart(m) && AllOwned(m)
  }

  ghost predicate AllFit(m: Memory) {
    forall v :: v in m.vectors ==> Fits(m, m.vectors[v])
  }

  ghost predicate AllApart(m: Memory) {
    forall v, w :: v in m.vectors && w in m.vectors && v != w ==> Apart(m.vectors[v], m.vectors[w])
  }

  ghost predicate AllOwned(m: Memory) {
    forall a, id :: a in m.heaps && id in m.heaps[a] ==> HasOwner(m, a, id)
  }

  /** The other vectors hold what they held, where it was, with the elements it had. */
  ghost predicate OthersKept(m: Memory, m': Memory, touched: set<NonRelocatableVector>) {
    forall v :: v in m.vectors && v !in touched ==>
      && v in m'.vectors && m'.vectors[v] == m.vectors[v]
      && var h := m.vectors[v];
         h.storage.Some? && h.alloc in m.heaps && h.storage.value in m.heaps[h.alloc] ==>
           && h.alloc in m'.heaps && h.storage.value in m'.heaps[h.alloc]
           && m'.heaps[h.alloc][h.storage.value] == m.heaps[h.alloc][h.storage.value]
  }

  /** A new vector with a block of its own. */
  lemma Gained(m: Memory, v: NonRelocatableVector, h: Hold, b: Block, m': Memory)
    requires Exact(m) && v !in m.vectors && h.alloc in m.heaps && h.storage.Some?
    requires h.storage.value !in m.heaps[h.alloc] && Filled(b, h.size, h.capacity)
    requires m' == Memory(m.vectors[v := h], m.heaps[h.alloc := Put(m.heaps[h.alloc], h.storage.value, b)])
    ensures Exact(m') && OthersKept(m, m', {})
  {
    forall w | w in m.vectors ensures Fits(m', m.vectors[w]) {
      assert Fits(m, m.vectors[w]);
    }
    forall a, id | a in m'.heaps && id in m'.heaps[a] ensures HasOwner(m', a, id) {
      if h.Is(a, id) {
        assert m'.vectors[v].Is(a, id);
      } else {
        OwnerStays(m, m', a, id);
      }
    }
  }

  /** An owner that is still there, with the same hold, is still the owner. */
  lemma OwnerStays(m: Memory, m': Memory, a: Allocator, id: nat)
    requires HasOwner(m, a, id)
    requires forall w :: w in m.vectors && m.vectors[w].Is(a, id) ==> w in m'.vectors && m'.vectors[w] == m.vectors[w]
    ensures HasOwner(m', a, id)
  {
    var w :| w in m.vectors && m.vectors[w].Is(a, id);
    assert m'.vectors[w].Is(a, id);
  }

  lemma HandedOwner(m: Memory, v: NonRelocatableVector, other: NonRelocatableVector, m': Memory, a: Allocator, id: nat)
    requires v !in m.vectors && other in m.vectors && HasOwner(m, a, id)
    requires m' == m.(vectors := m.vectors[v := m.vectors[other]][other := m.vectors[other].(storage := None)])
    ensures HasOwner(m', a, id)
  {
    if m.vectors[other].Is(a, id) {
      assert m'.vectors[v].Is(a, id);
    } else {
      OwnerStays(m, m', a, id);
    }
  }

  /** A new vector has what another one had. */
  lemma HandedOver(m: Memory, v: NonRelocatableVector, other: NonRelocatableVector, m': Memory)
    requires Exact(m) && v !in m.vectors && other in m.vectors
    requires m' == m.(vectors := m.vectors[v := m.vectors[other]][other := m.vectors[other].(storage := None)])
    ensures Exact(m') && OthersKept(m, m', {other})
  {
    assert AllFit(m') by { assert Fits(m, m.vectors[other]); }
    assert AllOwned(m') by {
      forall a, id | a in m'.heaps && id in m'.heaps[a] ensures HasOwner(m', a, id) {
        HandedOwner(m, v, other, m', a, id);
      }
    }
  }

  lemma ExchangedOwner(m: Memory, v: NonRelocatableVector, w: NonRelocatableVector, m': Memory, a: Allocator, id: nat)
    requires v in m.vectors && w in m.vectors && HasOwner(m, a, id)
    requires m' == m.(vectors := m.vectors[v := m.vectors[w]][w := m.vectors[v]])
    ensures HasOwner(m', a, id)
  {
    if m.vectors[v].Is(a, id) {
      assert m'.vectors[w].Is(a, id);
    } else if m.vectors[w].Is(a, id) {
      assert m'.vectors[v].Is(a, id);
    } else {
      OwnerStays(m, m', a, id);
    }
  }

  /** Two vectors have exchanged what they had. */
  lemma Exchanged(m: Memory, v: NonRelocatableVector, w: NonRelocatableVector, m': Memory)
    requires Exact(m) && v in m.vectors && w in m.vectors
    requires m' == m.(vectors := m.vectors[v := m.vectors[w]][w := m.vectors[v]])
    ensures Exact(m') && OthersKept(m, m', {v, w})
  {
    assert AllFit(m') by { assert Fits(m, m.vectors[v]) && Fits(m, m.vectors[w]); }
    ExchangedApart(m, v, w, m');
    assert AllOwned(m') by {
      forall a, id | a in m'.heaps && id in m'.heaps[a] ensures HasOwner(m', a, id) {
        ExchangedOwner(m, v, w, m', a, id);
      }
    }
  }

  lemma ExchangedApart(m: Memory, v: NonRelocatableVector, w: NonRelocatableVector, m': Memory)
    requires AllApart(m) && v in m.vectors && w in m.vectors
    requires m' == m.(vectors := m.vectors[v := m.vectors[w]][w := m.vectors[v]])
    ensures AllApart(m')
  {
    forall p: NonRelocatableVector, q: NonRelocatableVector | p in m'.vectors && q in m'.vectors && p != q
        ensures Apart(m'.vectors[p], m'.vectors[q]) {
      var p0: NonRelocatableVector := if p == v then w else if p == w then v else p;
      var q0: NonRelocatableVector := if q == v then w else if q == w then v else q;
      assert m'.vectors[p] == m.vectors[p0] && m'.vectors[q] == m.vectors[q0];
    }
  }

  /** A vector has filled its block further. */
  lemma Grown(m: Memory, v: NonRelocatableVector, h: Hold, b: Block, m': Memory)
    requires Exact(m) && v in m.vectors && h.storage.Some? && m.vectors[v] == h.(size := m.vectors[v].size)
    requires h.alloc in m.heaps && Filled(b, h.size, h.capacity)
    requires m' == Memory(m.vectors[v := h], m.heaps[h.alloc := Put(m.heaps[h.alloc], h.storage.value, b)])
    ensures Exact(m') && OthersKept(m, m', {v})
  {
    assert Fits(m, m.vectors[v]) && m.vectors[v].Is(h.alloc, h.storage.value);
    forall w | w in m.vectors && w != v ensures Fits(m', m.vectors[w]) && !m.vectors[w].Is(h.alloc, h.storage.value) {
      assert Fits(m, m.vectors[w]);
    }
    forall a, id | a in m'.heaps && id in m'.heaps[a] ensures HasOwner(m', a, id) {
      if h.Is(a, id) {
        assert m'.vectors[v].Is(a, id);
      } else {
        assert HasOwner(m, a, id);
        OwnerStays(m, m', a, id);
      }
    }
  }

  /** A vector is gone, with its block. */
  lemma Gone(m: Memory, v: NonRelocatableVector, m': Memory)
    requires Exact(m) && v in m.vectors
    requires var h := m.vectors[v];
             && h.alloc in m.heaps
             && m' == Memory(m.vectors - {v},
                             if h.storage.None? then m.heaps
                             else m.heaps[h.alloc := m.heaps[h.alloc] - {h.storage.value}])
    ensures Exact(m') && OthersKept(m, m', {v})
  {
    var h := m.vectors[v];
    forall w | w in m.vectors && w != v
      ensures Fits(m', m.vectors[w]) && (h.storage.Some? ==> !m.vectors[w].Is(h.alloc, h.storage.value))
    {
      assert Fits(m, m.vectors[w]);
      assert Apart(m.vectors[w], h);
    }
    forall a, id | a in m'.heaps && id in m'.heaps[a] ensures HasOwner(m', a, id) {
      assert HasOwner(m, a, id);
      OwnerStays(m, m', a, id);
    }
  }

  /**
  Once the last vector is gone, every element that was constructed was destroyed, as often; and every allocation
  was released, once and with the size it was asked for.
  */
  lemma AllReleased(p: Program, a: Allocator)
    requires p.Valid() && p.vectors == {} && a in p.allocators
    ensures a.log.constructed == a.log.destroyed && a.log.allocations == a.log.releases
    ensures HandedOutOnce(a.next, a.log.releases)
  {
    forall id ensures id !in a.blocks {
      assert id in a.blocks ==> HasOwner(p.Now(), a, id);
    }
    forall x: Slot ensures a.log.constructed[x] == a.log.destroyed[x] {
      assert Live(a.blocks, x) == 0;
    }
    forall x: Extent ensures a.log.allocations[x] == a.log.releases[x] {
      assert Held(a.blocks, x) == 0;
    }
  }

  /**
  The copy loop, which reads as many elements as the size says, reads existing ones only exactly if the vector
  has storage or is empty.
  */
  lemma CopyReads(v: NonRelocatableVector)
    requires v.Valid()
    ensures (forall i: nat :: i < v.size ==> v.ReadFrom(i).Some?) <==> v.storage.Some? || v.size == 0
  {
    assert v.storage.None? && v.size > 0 ==> v.ReadFrom(0).None?;
  }

  /** Moving from a vector with an element leaves one that says it has an element, and has none to read. */
  method MovedFromCannotBeCopied(a: Allocator, x: Elem) returns (v: NonRelocatableVector, moved: NonRelocatableVector)
    requires a.Valid()
    modifies a
    ensures v.Valid() && v.size == 1 && v.ReadFrom(0).None?
    ensures moved.Valid() && moved.storage.Some? && moved.Elements() == [x]
  {
    v := new NonRelocatableVector(1, a);
    v.EmplaceBack(x);
    moved := new NonRelocatableVector.Move(v);
  }

  /** A program that creates, fills, copies, moves and destroys vectors in any order. */
  class Program {
    var vectors: set<NonRelocatableVector>
    const allocators: set<Allocator>

    ghost function Now(): Memory
      reads this, vectors, allocators
    {
      Memory(map v | v in vectors :: v.Holds(), map a | a in allocators :: a.blocks)
    }

    ghost predicate Valid()
      reads this, vectors, allocators
    {
      Exact(Now()) && AllocatorsValid()
    }

    ghost predicate AllocatorsValid()
      reads allocators
    {
      forall a :: a in allocators ==> a.Valid()
    }

    constructor (allocators: set<Allocator>)
      requires forall a :: a in allocators ==> a.Valid() && a.blocks == map[]
      ensures Valid() && vectors == {} && this.allocators == allocators
    {
      vectors := {};
      this.allocators := allocators;
    }

    lemma NowIs(m: Memory)
      requires m.vectors.Keys == vectors && (forall w :: w in vectors ==> m.vectors[w] == w.Holds())
      requires m.heaps.Keys == allocators && (forall a :: a in allocators ==> m.heaps[a] == a.blocks)
      ensures Now() == m
    {
      assert Now().vectors == m.vectors && Now().heaps == m.heaps;
    }

    /** A vector of the program is in order, with its elements. */
    lemma InOrder(v: NonRelocatableVector)
      requires Valid() && v in vectors
      ensures v.alloc in allocators && v.Valid()
    {
      assert Now().vectors[v] == v.Holds();
      assert Fits(Now(), Now().vectors[v]);
    }

    method CreateHere(n: nat, a: Allocator) returns (v: NonRelocatableVector)
      requires a in allocators && a.Valid()
      modifies this, a
      ensures v !in old(vectors) && vectors == old(vectors) + {v} && v.Valid() && v.alloc == a && v.storage.Some?
      ensures v.Elements() == [] && v.storage.value !in old(a.blocks)
      ensures Now() == Memory(old(Now()).vectors[v := v.Holds()],
                              old(Now()).heaps[a := Put(old(a.blocks), v.storage.value, a.blocks[v.storage.value])])
    {
      ghost var m := Now();
      v := new NonRelocatableVector(n, a);
      vectors := vectors + {v};
      NowIs(Memory(m.vectors[v := v.Holds()], m.heaps[a := a.blocks]));
    }

    method Create(n: nat, a: Allocator) returns (v: NonRelocatableVector)
      requires Valid() && a in allocators
      modifies this, a
      ensures Valid() && vectors == old(vectors) + {v} && v.Valid() && v.storage.Some? && v.Elements() == []
      ensures OthersKept(old(Now()), Now(), {})
    {
      ghost var m := Now();
      v := CreateHere(n, a);
      Gained(m, v, v.Holds(), a.blocks[v.storage.value], Now());
    }

    method CopyHere(other: NonRelocatableVector) returns (v: NonRelocatableVector)
      requires other in vectors && other.alloc in allocators && other.Valid()
          && (other.storage.Some? || other.size == 0)
      modifies this, other.alloc
      ensures v !in old(vectors) && vectors == old(vectors) + {v} && v.Valid() && v.alloc == other.alloc
          && v.storage.Some?
      ensures other.Valid() && v.storage.value !in old(other.alloc.blocks)
      ensures other.storage.Some? ==> v.Elements() == other.Elements()
      ensures Now() == Memory(old(Now()).vectors[v := v.Holds()],
                              old(Now()).heaps[other.alloc := Put(old(other.alloc.blocks), v.storage.value,
                                                                  other.alloc.blocks[v.storage.value])])
    {
      ghost var m := Now();
      v := new NonRelocatableVector.Copy(other);
      vectors := vectors + {v};
      NowIs(Memory(m.vectors[v := v.Holds()], m.heaps[v.alloc := v.alloc.blocks]));
    }

    method Copy(other: NonRelocatableVector) returns (v: NonRelocatableVector)
      requires Valid() && other in vectors && (other.storage.Some? || other.size == 0)
      modifies this, other.alloc
      ensures Valid() && vectors == old(vectors) + {v} && v.Valid() && other.Valid() && v.storage.Some?
      ensures other.storage.Some? ==> v.Elements() == other.Elements()
      ensures OthersKept(old(Now()), Now(), {})
    {
      ghost var m := Now();
      InOrder(other);
      v := CopyHere(other);
      Gained(m, v, v.Holds(), v.alloc.blocks[v.storage.value], Now());
    }

    method MoveHere(other: NonRelocatableVector) returns (v: NonRelocatableVector)
      requires other in vectors && other.Valid()
      modifies this, other
      ensures v !in old(vectors) && vectors == old(vectors) + {v} && v.Holds() == old(other.Holds())
          && other.storage == None
      ensures Now() == old(Now()).(vectors := old(Now()).vectors[v := old(other.Holds())]
                                                               [other := old(other.Holds()).(storage := None)])
    {
      ghost var m := Now();
      v := new NonRelocatableVector.Move(other);
      vectors := vectors + {v};
      NowIs(m.(vectors := m.vectors[v := v.Holds()][other := other.Holds()]));
    }

    method Move(other: NonRelocatableVector) returns (v: NonRelocatableVector)
      requires Valid() && other in vectors
      modifies this, other
      ensures Valid() && vectors == old(vectors) + {v} && v.Holds() == old(other.Holds()) && other.storage == None
      ensures OthersKept(old(Now()), Now(), {other})
    {
      ghost var m := Now();
      InOrder(other);
      v := MoveHere(other);
      HandedOver(m, v, other, Now());
    }

    method EmplaceHere(v: NonRelocatableVector, x: Elem)
      requires v in vectors && v.alloc in allocators && v.Valid() && v.storage.Some? && v.size < v.capacity
      requires AllocatorsValid()
      modifies v`size, v.alloc`blocks, v.alloc`log
      ensures AllocatorsValid() && v.Valid() && v.Holds() == old(v.Holds()).(size := old(v.size) + 1)
      ensures v.Elements() == old(v.Elements()) + [x]
      ensures v.alloc.blocks[v.storage.value].slots == old(v.alloc.blocks[v.storage.value].slots)[old(v.size) := x]
      ensures Now() == Memory(old(Now()).vectors[v := v.Holds()],
                              old(Now()).heaps[v.alloc := Put(old(v.alloc.blocks), v.storage.value,
                                  v.alloc.blocks[v.storage.value])])
    {
      ghost var m := Now();
      v.ConstructNext(x);
      NowIs(Memory(m.vectors[v := v.Holds()], m.heaps[v.alloc := v.alloc.blocks]));
    }

    method Emplace(v: NonRelocatableVector, x: Elem)
      requires Valid() && v in vectors && v.storage.Some? && v.size < v.capacity
      modifies v`size, v.alloc`blocks, v.alloc`log
      ensures Valid() && v.Valid() && v.Holds() == old(v.Holds()).(size := old(v.size) + 1)
      ensures old(v.Valid()) && v.Elements() == old(v.Elements()) + [x]
      ensures v.storage.value in old(v.alloc.blocks)
      ensures v.alloc.blocks[v.storage.value].slots == old(v.alloc.blocks)[v.storage.value].slots[old(v.size) := x]
      ensures OthersKept(old(Now()), Now(), {v})
    {
      ghost var m := Now();
      InOrder(v);
      EmplaceHere(v, x);
      ghost var m' := Now();
      Grown(m, v, v.Holds(), v.alloc.blocks[v.storage.value], m');
    }

    method MoveAssignHere(v: NonRelocatableVector, other: NonRelocatableVector)
      requires v in vectors && other in vectors
      modifies v, other
      ensures Now() == old(Now()).(vectors := old(Now()).vectors[v := old(other.Holds())][other := old(v.Holds())])
    {
      ghost var m := Now();
      v.Exchange(other);
      NowIs(m.(vectors := m.vectors[v := v.Holds()][other := other.Holds()]));
    }

    method MoveAssign(v: NonRelocatableVector, other: NonRelocatableVector)
      requires Valid() && v in vectors && other in vectors
      modifies v, other
      ensures Valid() && Now().vectors[v] == old(other.Holds()) && Now().vectors[other] == old(v.Holds())
      ensures Now().heaps == old(Now()).heaps && OthersKept(old(Now()), Now(), {v, other})
    {
      ghost var m := Now();
      assert m.vectors[v] == v.Holds() && m.vectors[other] == other.Holds();
      MoveAssignHere(v, other);
      Exchanged(m, v, other, Now());
    }

    method DestroyHere(v: NonRelocatableVector)
      requires v in vectors && v.alloc in allocators && v.Valid()
      modifies this, v.alloc
      ensures vectors == old(vectors) - {v} && v.alloc.Valid()
      ensures Now() == Memory(old(Now()).vectors - {v},
                              if v.storage.None? then old(Now()).heaps
                              else old(Now()).heaps[v.alloc := old(v.alloc.blocks) - {v.storage.value}])
    {
      ghost var m := Now();
      v.Destruct();
      vectors := vectors - {v};
      NowIs(Memory(m.vectors - {v}, m.heaps[v.alloc := v.alloc.blocks]));
      assert v.storage.None? ==> m.heaps[v.alloc := v.alloc.blocks] == m.heaps;
    }

    method Destroy(v: NonRelocatableVector)
      requires Valid() && v in vectors
      modifies this, v.alloc
      ensures Valid() && vectors == old(vectors) - {v}
      ensures OthersKept(old(Now()), Now(), {v})
    {
      ghost var m := Now();
      InOrder(v);
      DestroyHere(v);
      Gone(m, v, Now());
    }
  }
}
