/** The object pool of src/basic_struct/object_pool.h, and the heap that takes its nodes from
    one (src/basic_struct/min_heap.h). */
module ObjectPool {
  import opened Order
  import opened MinHeap

  predicate Distinct<T(==)>(s: seq<T>) {
    forall i, j | 0 <= i < j < |s| :: s[i] != s[j]
  }

  lemma {:induction false} DistinctCount<T>(s: seq<T>)
    requires Distinct(s)
    ensures |Members(s)| == |s|
  {
    if s != [] {
      var last, rest := s[|s| - 1], s[..|s| - 1];
      DistinctCount(rest);
      assert Members(s) == Members(rest) + {last};
    }
  }

  /** Free and live slots are disjoint, without duplicates, and make up all slots. */
  ghost predicate Partition<T>(free: seq<T>, live: set<T>, slots: set<T>) {
    && Distinct(free) && live <= slots
    && (forall x | x in slots :: (x in live <==> x !in free))
    && (forall x | x in free :: x in slots)
  }

  lemma PartitionCount<T>(free: seq<T>, live: set<T>, slots: set<T>)
    requires Partition(free, live, slots)
    ensures |slots| == |free| + |live|
  {
    DistinctCount(free);
    assert slots == Members(free) + live && Members(free) !! live;
  }

  lemma PartitionTake<T>(free: seq<T>, live: set<T>, slots: set<T>)
    requires Partition(free, live, slots) && free != []
    ensures var x, rest := free[|free| - 1], free[..|free| - 1];
            x in slots && x !in live && Partition(rest, live + {x}, slots)
  {
    var x, rest := free[|free| - 1], free[..|free| - 1];
    assert free == rest + [x];
    assert x !in rest;
  }

  lemma PartitionGive<T>(free: seq<T>, live: set<T>, slots: set<T>, x: T)
    requires Partition(free, live, slots) && x in live
    ensures Partition(free + [x], live - {x}, slots)
  {
    assert x !in free;
    assert forall i | 0 <= i < |free| :: free[i] in free;
  }

  lemma PartitionNew<T>(free: seq<T>, live: set<T>, slots: set<T>, x: T)
    requires Partition(free, live, slots) && x !in slots
    ensures Partition(free + [x], live, slots + {x})
  {
    assert x !in free;
    assert forall i | 0 <= i < |free| :: free[i] in free;
  }

  class Pool<K(0)> {
    const perBlock: nat
    var blocks: seq<seq<HeapNode<K>>>
    var free: seq<HeapNode<K>>
    ghost var live: set<HeapNode<K>>    // the slots handed out
    ghost var slots: set<HeapNode<K>>   // all slots of all blocks

    /** The slots are those of all blocks. */
    ghost predicate Valid()
      reads this
    {
      && perBlock > 0 && Partition(free, live, slots)
      && |slots| == |blocks| * perBlock && (forall b | b in blocks :: |b| == perBlock)
    }

    /** Free and live slots together number capacity(). */
    lemma CapacityIsSlots()
      requires Valid()
      ensures Members(free) !! live && |Members(free)| == |free|
      ensures |free| + |live| == |blocks| * perBlock
    {
      DistinctCount(free);
      PartitionCount(free, live, slots);
    }

    constructor (capacity: nat, perBlock: nat)
      requires perBlock > 0
      ensures Valid() && live == {} && fresh(slots)
      ensures this.perBlock == perBlock && capacity <= |blocks| * perBlock < capacity + perBlock
    {
      this.perBlock := perBlock;
      blocks, free, live, slots := [], [], {}, {};
      new;
      var needed := (capacity + perBlock - 1) / perBlock;
      while |blocks| < needed
        invariant Valid() && |blocks| <= needed && live == {} && fresh(slots)
      {
        Grow();
      }
    }

    /** One more block of new slots, all free. */
    method Grow()
      requires Valid()
      modifies this
      ensures Valid() && live == old(live) && slots >= old(slots) && fresh(slots - old(slots))
      ensures |blocks| == old(|blocks|) + 1 && free != []
      ensures blocks[..|blocks| - 1] == old(blocks) && free == old(free) + blocks[|blocks| - 1]
    {
      var block: seq<HeapNode<K>> := [];
      while |block| < perBlock
        invariant |block| <= perBlock && Partition(free, live, slots) && |slots| == old(|slots|) + |block|
        invariant free == old(free) + block
        invariant slots >= old(slots) && fresh(slots - old(slots)) && allocated(slots)
        modifies this`free, this`slots
      {
        var slot := new HeapNode<K>();
        PartitionNew(free, live, slots, slot);
        block, free := block + [slot], free + [slot];
        slots := slots + {slot};
      }
      OneMore(|blocks|, perBlock);
      blocks := blocks + [block];
    }

    lemma OneMore(n: nat, p: nat)
      ensures (n + 1) * p == n * p + p
    {
    }

    /** acquire never hands out a live slot, hands out the one freed last, and grows exactly
        when nothing is free. */
    method Acquire() returns (ret: HeapNode<K>)
      requires Valid()
      modifies this
      ensures Valid() && ret !in old(live) && live == old(live) + {ret}
      ensures slots >= old(slots) && fresh(slots - old(slots)) && ret in slots
      ensures |blocks| == old(|blocks|) + if old(free) == [] then 1 else 0
      ensures old(free) != [] ==> old(free) == free + [ret] && blocks == old(blocks) && slots == old(slots)
      ensures old(free) == [] ==> blocks[|blocks| - 1] == free + [ret]
    {
      if free == [] {
        Grow();
      }
      PartitionTake(free, live, slots);
      ret := free[|free| - 1];
      free := free[..|free| - 1];
      live := live + {ret};
    }

    method Release(ptr: HeapNode<K>)
      requires Valid() && ptr in live
      modifies this
      ensures Valid() && live == old(live) - {ptr} && slots == old(slots) && blocks == old(blocks)
      ensures free == old(free) + [ptr]
    {
      PartitionGive(free, live, slots, ptr);
      free := free + [ptr];
      live := live - {ptr};
    }
  }

  class PooledHeap<K(!new, 0)> {
    const pool: Pool<K>
    const heap: IntrusiveHeap<K>

    /** The heap's nodes are the live slots of the pool. */
    ghost predicate Valid()
      reads pool, heap, heap.nodes
    {
      pool.Valid() && heap.Valid() && heap.nodes == pool.live && |heap.data| == |pool.live|
    }

    constructor (capacity: nat, perBlock: nat, lt: (K, K) -> bool)
      requires perBlock > 0 && StrictWeakOrder(lt)
      ensures Valid() && heap.nodes == {} && heap.lt == lt && fresh(pool) && fresh(heap) && fresh(pool.slots)
    {
      pool := new Pool<K>(capacity, perBlock);
      heap := new IntrusiveHeap<K>(lt);
    }

    method Emplace(key: K) returns (obj: HeapNode<K>)
      requires Valid()
      modifies pool, heap, heap.nodes`index, pool.slots
      ensures Valid() && obj !in old(heap.nodes) && heap.nodes == old(heap.nodes) + {obj} && obj.key == key
      ensures fresh(pool.slots - old(pool.slots))
      ensures forall x | x in old(heap.nodes) :: x.key == old(x.key)
    {
      obj := pool.Acquire();
      Prepare(obj, key);
      heap.Push(obj);
    }

    method Prepare(obj: HeapNode<K>, key: K)
      requires pool.Valid() && heap.Valid() && obj !in heap.nodes
      modifies obj
      ensures pool.Valid() && heap.Valid() && obj.key == key && obj.index == -1
    {
      obj.key := key;
      obj.index := -1;
    }

    /** Takes a least element out and gives its slot back. */
    method Pop()
      requires Valid() && heap.data != []
      modifies pool, heap, heap.nodes`index
      ensures Valid() && old(heap.data[0]) in old(heap.nodes) && heap.nodes == old(heap.nodes) - {old(heap.data[0])}
      ensures forall y | y in heap.nodes :: !heap.lt(y.key, old(heap.data[0].key)) && y.key == old(y.key)
    {
      var least := heap.PopLeast();
      pool.Release(least);
    }

    method Update(x: HeapNode<K>, key: K)
      requires Valid() && x in heap.nodes
      modifies heap`data, heap.nodes`index, x`key
      ensures Valid() && heap.nodes == old(heap.nodes) && x.key == key
    {
      heap.ChangeKey(x, key);
    }
  }
}
